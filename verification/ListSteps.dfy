/** Every step of the list lab keeps the invariant, and stays off the lists that other threads have locked. */
module ListSteps {
  import opened Base
  import opened SortedList
  import opened ListMachine
  import opened ListRings
  import opened ListInvariant

  /** The element a thread may write to before it is on a list. */
  ghost function Own(row: seq<Node>, phase: Phase): set<Node> {
    if Element(row, phase).Some? then {Element(row, phase).value} else {}
  }

  /** The ring after a step of the lock's owner. */
  ghost function RingAfter(ring: seq<Node>, row: seq<Node>, th: Thread): seq<Node> {
    match th.phase
    case Inserting(_) => if Element(row, th.phase).Some? then InsertRing(ring, Element(row, th.phase).value, th.at) else ring
    case Deleting(_) => if Element(row, th.phase).Some? then DeleteRing(ring, Element(row, th.phase).value, th.at) else ring
    case _ => ring
  }

  /** In a critical section: after taking the lock and before giving it back. */
  predicate Inside(th: Thread) {
    !th.phase.Done? && !th.at.Acquire? && !th.at.Release?
  }

  // ----- membership

  /** One element comes or goes. */
  lemma MemberMoves(pool: Pool, rings: Rings, threads: seq<Thread>, t: nat, i: nat, th: Thread, k: nat, ring: seq<Node>)
    requires |threads| == |pool| && |rings| > 0 && PoolOK(pool) && MembersOK(pool, rings, threads)
    requires IsElement(pool, t, i) && k == KeyHash(pool[t][i].key.value, |rings|)
    requires forall j: nat :: j != i && j < |pool[t]| ==> Present(th, j) == Present(threads[t], j)
    requires |rings[k]| > 0 && |ring| > 0 && ring[0] == rings[k][0]
    requires forall x :: x in ring <==> if x == pool[t][i] then Present(th, i) else x in rings[k]
    ensures MembersOK(pool, rings[k := ring], threads[t := th])
  {
    hide KeyHash, Present;
  }

  /** A step that changes no element's presence. */
  lemma SamePresence(pool: Pool, rings: Rings, threads: seq<Thread>, t: nat, th: Thread)
    requires |threads| == |pool| && |rings| > 0 && PoolOK(pool) && MembersOK(pool, rings, threads)
    requires t < |pool| && forall i: nat :: i < |pool[t]| ==> Present(th, i) == Present(threads[t], i)
    ensures MembersOK(pool, rings, threads[t := th])
  {
    hide KeyHash, Present;
  }

  /** The lock owner's element is on the list exactly if it is present. */
  lemma ElementPresence(lab: Lab, s: State, rings: Rings, t: nat)
    requires Inv(lab, s, rings) && t < |s.threads| && Element(lab.pool[t], s.threads[t].phase).Some?
    ensures var th := s.threads[t]; var k := Target(lab.pool[t], th.phase, |lab.heads|);
            && k < |rings| && IsElement(lab.pool, t, th.phase.i) && Element(lab.pool[t], th.phase).value == lab.pool[t][th.phase.i]
            && k == KeyHash(lab.pool[t][th.phase.i].key.value, |rings|)
            && (lab.pool[t][th.phase.i] in rings[k] <==> Present(th, th.phase.i))
            && lab.pool[t][th.phase.i] in s.links.next && lab.pool[t][th.phase.i] in s.links.prev
  {
    hide KeyHash, ListOK, LocksOK;
    assert IsElement(lab.pool, t, s.threads[t].phase.i);
  }

  /** What the invariant says about a thread in a critical section. */
  lemma OwnerFacts(lab: Lab, s: State, rings: Rings, t: nat)
    requires Inv(lab, s, rings) && t < |s.threads| && !s.threads[t].at.Acquire?
    ensures var th := s.threads[t]; var k := Target(lab.pool[t], th.phase, |lab.heads|);
            && !th.phase.Done? && k < |rings| && s.locks[k] == Some(t) && Proper(rings[k], lab.heads[k])
            && SectionOK(s.links, rings[k], lab.pool[t], th)
            && (!th.phase.Measuring? ==> Element(lab.pool[t], th.phase).Some?)
  {
    hide KeyHash, MembersOK, InsertOK, DeleteOK, MeasureOK, Sorted;
    var k := Target(lab.pool[t], s.threads[t].phase, |lab.heads|);
    assert ListOK(lab, s.links, k, rings[k], s.locks[k], s.threads);
  }

  /** A step in a critical section succeeds, and does what its phase promises to its own list. */
  lemma SectionMoves(lab: Lab, s: State, rings: Rings, t: nat)
    requires Inv(lab, s, rings) && t < |s.threads| && Inside(s.threads[t])
    ensures var th := s.threads[t]; var k := Target(lab.pool[t], th.phase, |lab.heads|);
            && k < |rings| && s.locks[k] == Some(t)
            && var r := SectionStep(s.links, lab.heads[k], lab.pool[t], th.phase, th.at);
               var ring' := RingAfter(rings[k], lab.pool[t], th);
               && r.Go? && !r.at.Acquire? && SamePlace(th.phase, r.phase)
               && SectionOK(r.links, ring', lab.pool[t], Thread(r.phase, r.at)) && Proper(ring', lab.heads[k])
               && Within(s.links, r.links, rings[k], Own(lab.pool[t], th.phase))
               && MembersOK(lab.pool, rings[k := ring'], s.threads[t := Thread(r.phase, r.at)])
  {
    hide Inv, KeyHash, MembersOK, InsertOK, DeleteOK, MeasureOK, Sorted, Keyed, InsertStep, DeleteStep, MeasureStep, DeleteRing, InsertRing;
    Membership(lab, s, rings);
    OwnerFacts(lab, s, rings, t);
    var th := s.threads[t];
    var k := Target(lab.pool[t], th.phase, |lab.heads|);
    match th.phase {
      case Inserting(i) => InsertMoves(lab, s, rings, t, k);
      case Measuring(j, len) => MeasureMoves(lab, s, rings, t, k);
      case Deleting(i) => DeleteMoves(lab, s, rings, t, k);
    }
  }

  /** The same element, or the same list. */
  predicate SamePlace(phase: Phase, phase': Phase) {
    phase' == phase || (phase.Measuring? && phase'.Measuring? && phase'.j == phase.j)
  }

  lemma InsertMoves(lab: Lab, s: State, rings: Rings, t: nat, k: nat)
    requires Inv(lab, s, rings) && t < |s.threads| && Inside(s.threads[t]) && s.threads[t].phase.Inserting?
    requires k == Target(lab.pool[t], s.threads[t].phase, |lab.heads|) < |rings|
    requires SectionOK(s.links, rings[k], lab.pool[t], s.threads[t]) && Proper(rings[k], lab.heads[k])
    ensures Element(lab.pool[t], s.threads[t].phase).Some?
    ensures var th := s.threads[t]; var e := Element(lab.pool[t], th.phase).value;
            var r := InsertStep(s.links, lab.heads[k], e, th.phase, th.at);
            var ring' := InsertRing(rings[k], e, th.at);
            && r.Go? && r.phase == th.phase && !r.at.Acquire? && InsertOK(r.links, ring', e, r.at) && Proper(ring', lab.heads[k])
            && Within(s.links, r.links, rings[k], {e})
            && MembersOK(lab.pool, rings[k := ring'], s.threads[t := Thread(r.phase, r.at)])
  {
    hide Inv, KeyHash, MembersOK, InsertOK, Sorted, InsertStep, InsertRing;
    Membership(lab, s, rings);
    var th := s.threads[t];
    var e := Element(lab.pool[t], th.phase).value;
    ElementPresence(lab, s, rings, t);
    InsertSection(s.links, rings[k], lab.heads[k], e, th.phase, th.at);
    var r := InsertStep(s.links, lab.heads[k], e, th.phase, th.at);
    MemberMoves(lab.pool, rings, s.threads, t, th.phase.i, Thread(r.phase, r.at), k, InsertRing(rings[k], e, th.at));
  }

  lemma MeasureMoves(lab: Lab, s: State, rings: Rings, t: nat, k: nat)
    requires Inv(lab, s, rings) && t < |s.threads| && Inside(s.threads[t]) && s.threads[t].phase.Measuring?
    requires k < |rings| && SectionOK(s.links, rings[k], lab.pool[t], s.threads[t]) && Proper(rings[k], lab.heads[k])
    ensures var th := s.threads[t];
            var r := MeasureStep(s.links, lab.heads[k], th.phase, th.at);
            && r.Go? && r.phase.Measuring? && r.phase.j == th.phase.j && !r.at.Acquire? && r.links == s.links
            && MeasureOK(r.links, rings[k], r.at)
            && MembersOK(lab.pool, rings, s.threads[t := Thread(r.phase, r.at)])
            && rings[k := rings[k]] == rings
  {
    hide Inv, KeyHash, MembersOK, MeasureOK, Sorted, MeasureStep;
    Membership(lab, s, rings);
    var th := s.threads[t];
    MeasureSection(s.links, rings[k], lab.heads[k], th.phase, th.at);
    var r := MeasureStep(s.links, lab.heads[k], th.phase, th.at);
    SamePresence(lab.pool, rings, s.threads, t, Thread(r.phase, r.at));
  }

  lemma DeleteMoves(lab: Lab, s: State, rings: Rings, t: nat, k: nat)
    requires Inv(lab, s, rings) && t < |s.threads| && Inside(s.threads[t]) && s.threads[t].phase.Deleting?
    requires k == Target(lab.pool[t], s.threads[t].phase, |lab.heads|) < |rings|
    requires SectionOK(s.links, rings[k], lab.pool[t], s.threads[t]) && Proper(rings[k], lab.heads[k])
    ensures Element(lab.pool[t], s.threads[t].phase).Some?
    ensures var th := s.threads[t]; var e := Element(lab.pool[t], th.phase).value;
            var r := DeleteStep(s.links, lab.heads[k], e, th.phase, th.at);
            var ring' := DeleteRing(rings[k], e, th.at);
            && r.Go? && r.phase == th.phase && !r.at.Acquire? && DeleteOK(r.links, ring', e, r.at) && Proper(ring', lab.heads[k])
            && Within(s.links, r.links, rings[k], {e})
            && MembersOK(lab.pool, rings[k := ring'], s.threads[t := Thread(r.phase, r.at)])
  {
    hide Inv, KeyHash, MembersOK, DeleteOK, Sorted, DeleteStep, DeleteRing;
    Membership(lab, s, rings);
    var th := s.threads[t];
    var e := Element(lab.pool[t], th.phase).value;
    ElementPresence(lab, s, rings, t);
    DeleteSection(s.links, rings[k], lab.heads[k], e, th.phase, th.at);
    var r := DeleteStep(s.links, lab.heads[k], e, th.phase, th.at);
    MemberMoves(lab.pool, rings, s.threads, t, th.phase.i, Thread(r.phase, r.at), k, DeleteRing(rings[k], e, th.at));
  }

  lemma Membership(lab: Lab, s: State, rings: Rings)
    requires Inv(lab, s, rings)
    ensures PoolOK(lab.pool) && SameSizes(lab, s) && |rings| == |lab.heads| > 0 && MembersOK(lab.pool, rings, s.threads)
  {
  }

  // ----- the other lists

  /** A list whose nodes, and whose owner's element, keep their words stays as it is. */
  lemma SectionKept(m: Links, m': Links, ring: seq<Node>, row: seq<Node>, th: Thread)
    requires SectionOK(m, ring, row, th) && Agree(m, m', ring)
    requires Element(row, th.phase).Some? ==> Agree(m, m', [Element(row, th.phase).value])
    requires m'.next.Keys == m.next.Keys && m'.prev.Keys == m.prev.Keys
    ensures SectionOK(m', ring, row, th)
  {
    hide RingBut, IsPlace, Agree;
    if IsRing(m, ring) {
      RingKept(m, m', ring, -1);
    }
    if Element(row, th.phase).Some? {
      SameWords(m, m', Element(row, th.phase).value);
    }
    forall p: nat | HalfRing(m, ring, p) ensures HalfRing(m', ring, p) {
      RingKept(m, m', ring, p);
      SameBehind(m, m', ring, p);
    }
  }

  lemma SameWords(m: Links, m': Links, x: Node)
    requires Agree(m, m', [x]) && m'.next.Keys == m.next.Keys && m'.prev.Keys == m.prev.Keys
    ensures NextOf(m', x) == NextOf(m, x) && PrevOf(m', x) == PrevOf(m, x)
  {
    assert x in [x];
  }

  lemma SameBehind(m: Links, m': Links, ring: seq<Node>, p: nat)
    requires HalfRing(m, ring, p) && Agree(m, m', ring) && RingBut(m', ring, p)
    ensures m'.prev[ring[Succ(p, |ring|)]] == m.prev[ring[Succ(p, |ring|)]]
  {
    assert ring[Succ(p, |ring|)] in ring;
  }

  /** What thread u can write to, in its section on list k, lies on no other list and is no other thread's element. */
  lemma Disjointness(lab: Lab, s: State, rings: Rings, u: nat, k: nat, l: nat)
    requires Inv(lab, s, rings) && u < |s.threads| && !s.threads[u].at.Acquire?
    requires k == Target(lab.pool[u], s.threads[u].phase, |lab.heads|) && k < |rings| && l < |rings| && l != k
    ensures forall x :: x in rings[l] ==> x !in rings[k] && x !in Own(lab.pool[u], s.threads[u].phase)
  {
    hide KeyHash, ListOK, LocksOK, Present;
    Membership(lab, s, rings);
    assert Apart(rings);
    if Element(lab.pool[u], s.threads[u].phase).Some? {
      ElementPresence(lab, s, rings, u);
    }
  }

  lemma ElementsDiffer(lab: Lab, s: State, rings: Rings, t: nat, u: nat)
    requires Inv(lab, s, rings) && t < |s.threads| && u < |s.threads| && t != u && Element(lab.pool[t], s.threads[t].phase).Some?
    requires Target(lab.pool[t], s.threads[t].phase, |lab.heads|) != Target(lab.pool[u], s.threads[u].phase, |lab.heads|) < |rings|
    ensures var e := Element(lab.pool[t], s.threads[t].phase).value;
            e !in Own(lab.pool[u], s.threads[u].phase) && e !in rings[Target(lab.pool[u], s.threads[u].phase, |lab.heads|)]
  {
    hide KeyHash, ListOK, LocksOK, Present;
    Membership(lab, s, rings);
    ElementPresence(lab, s, rings, t);
    if Element(lab.pool[u], s.threads[u].phase).Some? {
      ElementPresence(lab, s, rings, u);
    }
  }

  /**
   Mutual exclusion in full: a step that another thread u takes in its own critical section writes
   to no node of a list that thread t has locked, and not to t's element.
   */
  lemma OthersKeepOff(lab: Lab, s: State, rings: Rings, t: nat, u: nat, m': Links)
    requires Inv(lab, s, rings) && t < |s.threads| && u < |s.threads| && t != u && !s.threads[t].at.Acquire? && !s.threads[u].at.Acquire?
    requires var k := Target(lab.pool[u], s.threads[u].phase, |lab.heads|);
             k < |rings| && Within(s.links, m', rings[k], Own(lab.pool[u], s.threads[u].phase))
    ensures var l := Target(lab.pool[t], s.threads[t].phase, |lab.heads|);
            && l < |rings| && Agree(s.links, m', rings[l])
            && (Element(lab.pool[t], s.threads[t].phase).Some? ==> Agree(s.links, m', [Element(lab.pool[t], s.threads[t].phase).value]))
  {
    hide Inv, KeyHash, SectionOK, Sorted, Keyed, Target, Own, Element;
    Membership(lab, s, rings);
    OwnerFacts(lab, s, rings, t);
    OwnerFacts(lab, s, rings, u);
    var k := Target(lab.pool[u], s.threads[u].phase, |lab.heads|);
    var l := Target(lab.pool[t], s.threads[t].phase, |lab.heads|);
    assert k != l;
    Disjointness(lab, s, rings, u, k, l);
    if Element(lab.pool[t], s.threads[t].phase).Some? {
      ElementsDiffer(lab, s, rings, t, u);
    }
  }

  /** A list whose lock is free keeps its words too. */
  lemma FreeListsKept(lab: Lab, s: State, rings: Rings, u: nat, k: nat, l: nat, m': Links)
    requires Inv(lab, s, rings) && u < |s.threads| && !s.threads[u].at.Acquire?
    requires k == Target(lab.pool[u], s.threads[u].phase, |lab.heads|) && k < |rings| && l < |rings| && l != k
    requires Within(s.links, m', rings[k], Own(lab.pool[u], s.threads[u].phase))
    ensures Agree(s.links, m', rings[l])
  {
    hide Inv, Target, Own;
    Disjointness(lab, s, rings, u, k, l);
  }

  /** List l after a step of thread u on list k. */
  lemma OtherList(lab: Lab, s: State, rings: Rings, u: nat, k: nat, l: nat, m': Links, th: Thread)
    requires Inv(lab, s, rings) && u < |s.threads| && !s.threads[u].at.Acquire?
    requires k == Target(lab.pool[u], s.threads[u].phase, |lab.heads|) && k < |rings| && l < |rings| && l != k
    requires Within(s.links, m', rings[k], Own(lab.pool[u], s.threads[u].phase))
    ensures |s.threads| == |lab.pool| && |s.locks| == |lab.heads| == |rings|
    ensures ListOK(lab, m', l, rings[l], s.locks[l], s.threads[u := th])
  {
    hide KeyHash, MembersOK, SectionOK, RingBut, Sorted, Keyed, Target, Own, Agree;
    assert ListOK(lab, s.links, l, rings[l], s.locks[l], s.threads);
    FreeListsKept(lab, s, rings, u, k, l, m');
    match s.locks[l] {
      case None => RingKept(s.links, m', rings[l], -1);
      case Some(t) =>
        OwnerFacts(lab, s, rings, u);
        OwnerFacts(lab, s, rings, t);
        OthersKeepOff(lab, s, rings, t, u, m');
        SectionKept(s.links, m', rings[l], lab.pool[t], s.threads[t]);
    }
  }
}
