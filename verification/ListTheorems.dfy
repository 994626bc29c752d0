/** What holds in every run of the list lab, for any numbers of threads, elements and lists and any interleaving. */
module ListTheorems {
  import opened Base
  import opened SortedList
  import opened ListMachine
  import opened ListRings
  import opened ListInvariant
  import opened ListSteps

  /** Empty lists, free locks, every thread at its first insertion; what the elements' words hold does not matter. */
  ghost predicate Start(lab: Lab, s: State) {
    && LabOK(lab) && SameSizes(lab, s) && !s.corrupt
    && s.links.next.Keys == s.links.prev.Keys == Nodes(lab)
    && (forall k :: 0 <= k < |lab.heads| ==> NextOf(s.links, lab.heads[k]) == PrevOf(s.links, lab.heads[k]) == lab.heads[k])
    && (forall k :: 0 <= k < |s.locks| ==> s.locks[k] == None)
    && (forall t :: 0 <= t < |s.threads| ==> s.threads[t] == Thread(ToInsert(0, |lab.pool[t]|, |lab.heads|), Acquire))
  }

  ghost function HeadsOnly(lab: Lab): (r: Rings)
    ensures |r| == |lab.heads| && forall k :: 0 <= k < |lab.heads| ==> r[k] == [lab.heads[k]]
  {
    seq(|lab.heads|, k requires 0 <= k < |lab.heads| => [lab.heads[k]])
  }

  lemma StartMembers(lab: Lab, s: State)
    requires Start(lab, s)
    ensures MembersOK(lab.pool, HeadsOnly(lab), s.threads)
  {
    hide KeyHash;
  }

  lemma StartGood(lab: Lab, s: State)
    requires Start(lab, s)
    ensures Inv(lab, s, HeadsOnly(lab))
  {
    hide MembersOK, KeyHash;
    StartMembers(lab, s);
    forall k | 0 <= k < |lab.heads| ensures ListOK(lab, s.links, k, HeadsOnly(lab)[k], s.locks[k], s.threads) {
      assert lab.heads[k] in lab.heads && lab.heads[k] in s.links.next;
    }
  }

  lemma TargetInRange(lab: Lab, s: State, rings: Rings, t: nat)
    requires Inv(lab, s, rings) && t < |s.threads|
    ensures Target(lab.pool[t], s.threads[t].phase, |lab.heads|) < |lab.heads| == |rings| == |s.locks| && |s.threads| == |lab.pool|
    ensures PhaseOK(lab.pool[t], s.threads[t].phase, |lab.heads|)
  {
    hide KeyHash, ListOK, LocksOK, MembersOK;
  }

  /** The rings after thread t's step. */
  ghost function RingsAfter(lab: Lab, s: State, rings: Rings, t: nat): Rings
    requires SameSizes(lab, s) && t < |s.threads|
  {
    var k := Target(lab.pool[t], s.threads[t].phase, |lab.heads|);
    if Inside(s.threads[t]) && k < |rings| then rings[k := RingAfter(rings[k], lab.pool[t], s.threads[t])] else rings
  }

  lemma AcquireKeeps(lab: Lab, s: State, rings: Rings, t: nat, k: nat)
    requires Inv(lab, s, rings) && t < |s.threads| && s.threads[t].at.Acquire? && !s.threads[t].phase.Done?
    requires k == Target(lab.pool[t], s.threads[t].phase, |lab.heads|) < |s.locks| && s.locks[k].None?
    ensures Inv(lab, s.(locks := s.locks[k := Some(t)], threads := s.threads[t := Thread(s.threads[t].phase, Fetch)]), rings)
  {
    hide KeyHash, MembersOK, Sorted, Keyed, RingBut, Target, InsertOK, DeleteOK, MeasureOK;
    var th := Thread(s.threads[t].phase, Fetch);
    var s' := s.(locks := s.locks[k := Some(t)], threads := s.threads[t := th]);
    SamePresence(lab.pool, rings, s.threads, t, th);
    forall l | 0 <= l < |rings| ensures ListOK(lab, s'.links, l, rings[l], s'.locks[l], s'.threads) {
      assert ListOK(lab, s.links, l, rings[l], s.locks[l], s.threads);
      if l == k {
        EntersSection(lab, s, rings, t, k);
      }
    }
  }

  lemma EntersSection(lab: Lab, s: State, rings: Rings, t: nat, k: nat)
    requires Inv(lab, s, rings) && t < |s.threads| && !s.threads[t].phase.Done? && k < |rings| && IsRing(s.links, rings[k])
    ensures SectionOK(s.links, rings[k], lab.pool[t], Thread(s.threads[t].phase, Fetch))
  {
    hide KeyHash, ListOK, LocksOK, MembersOK, RingBut;
    TargetInRange(lab, s, rings, t);
    assert s.threads[t].phase.Measuring? || IsElement(lab.pool, t, s.threads[t].phase.i);
  }

  lemma ReleaseKeeps(lab: Lab, s: State, rings: Rings, t: nat, k: nat)
    requires Inv(lab, s, rings) && t < |s.threads| && s.threads[t].at.Release?
    requires k == Target(lab.pool[t], s.threads[t].phase, |lab.heads|) < |s.locks|
    ensures Inv(lab, s.(locks := s.locks[k := None],
                        threads := s.threads[t := Thread(NextPhase(s.threads[t].phase, |lab.pool[t]|, |lab.heads|), Acquire)]), rings)
  {
    hide KeyHash, MembersOK, Sorted, Keyed, RingBut, Target;
    var th := Thread(NextPhase(s.threads[t].phase, |lab.pool[t]|, |lab.heads|), Acquire);
    var s' := s.(locks := s.locks[k := None], threads := s.threads[t := th]);
    OwnerFacts(lab, s, rings, t);
    SamePresence(lab.pool, rings, s.threads, t, th);
    forall l | 0 <= l < |rings| ensures ListOK(lab, s'.links, l, rings[l], s'.locks[l], s'.threads) {
      assert ListOK(lab, s.links, l, rings[l], s.locks[l], s.threads);
    }
  }

  lemma SectionKeeps(lab: Lab, s: State, rings: Rings, t: nat, k: nat)
    requires Inv(lab, s, rings) && t < |s.threads| && Inside(s.threads[t])
    requires k == Target(lab.pool[t], s.threads[t].phase, |lab.heads|) < |s.locks|
    ensures var th := s.threads[t];
            var r := SectionStep(s.links, lab.heads[k], lab.pool[t], th.phase, th.at);
            r.Go? && Inv(lab, s.(links := r.links, threads := s.threads[t := Thread(r.phase, r.at)]), RingsAfter(lab, s, rings, t))
  {
    hide KeyHash, MembersOK, Sorted, Keyed, RingBut, SectionOK, SectionStep, RingAfter, Own;
    SectionMoves(lab, s, rings, t);
    var th := s.threads[t];
    var r := SectionStep(s.links, lab.heads[k], lab.pool[t], th.phase, th.at);
    var s' := s.(links := r.links, threads := s.threads[t := Thread(r.phase, r.at)]);
    var rings' := RingsAfter(lab, s, rings, t);
    assert Target(lab.pool[t], r.phase, |lab.heads|) == k;
    forall l | 0 <= l < |rings| ensures ListOK(lab, s'.links, l, rings'[l], s'.locks[l], s'.threads) {
      if l != k {
        OtherList(lab, s, rings, t, k, l, r.links, Thread(r.phase, r.at));
      }
    }
  }

  /** Every step of every thread keeps the invariant; in particular nobody reports corruption. */
  lemma StepKeeps(lab: Lab, s: State, rings: Rings, t: nat)
    requires Inv(lab, s, rings) && t < |s.threads|
    ensures SameSizes(lab, s) && Inv(lab, Next(lab, s, t), RingsAfter(lab, s, rings, t))
  {
    hide KeyHash, ListOK, LocksOK, MembersOK, Target, SectionStep, RingAfter;
    TargetInRange(lab, s, rings, t);
    var th := s.threads[t];
    var k := Target(lab.pool[t], th.phase, |lab.heads|);
    if !th.phase.Done? {
      if th.at.Acquire? {
        if s.locks[k].None? {
          AcquireKeeps(lab, s, rings, t, k);
        }
      } else if th.at.Release? {
        ReleaseKeeps(lab, s, rings, t, k);
      } else {
        SectionKeeps(lab, s, rings, t, k);
      }
    }
  }

  ghost predicate IsSchedule(s: State, schedule: seq<nat>) {
    forall i :: 0 <= i < |schedule| ==> schedule[i] < |s.threads|
  }

  lemma {:induction false} AfterOneMore(lab: Lab, s: State, schedule: seq<nat>, t: nat)
    requires SameSizes(lab, s) && IsSchedule(s, schedule) && t < |s.threads|
    ensures SameSizes(lab, After(lab, s, schedule)) && IsSchedule(s, schedule + [t])
    ensures After(lab, s, schedule + [t]) == Next(lab, After(lab, s, schedule), t)
    decreases |schedule|
  {
    hide Next;
    var more := schedule + [t];
    if schedule == [] {
      assert more[1..] == [];
    } else {
      SizesStay(lab, s, schedule[0]);
      AfterOneMore(lab, Next(lab, s, schedule[0]), schedule[1..], t);
      assert more[0] == schedule[0] && more[1..] == schedule[1..] + [t];
    }
  }

  lemma SizesStay(lab: Lab, s: State, t: nat)
    requires SameSizes(lab, s) && t < |s.threads|
    ensures SameSizes(lab, Next(lab, s, t)) && |Next(lab, s, t).threads| == |s.threads|
  {
  }

  /** The rings after a whole schedule. */
  ghost function RingsAfterAll(lab: Lab, s: State, rings: Rings, schedule: seq<nat>): Rings
    requires SameSizes(lab, s) && IsSchedule(s, schedule)
    decreases |schedule|
  {
    if schedule == [] then rings else RingsAfterAll(lab, Next(lab, s, schedule[0]), RingsAfter(lab, s, rings, schedule[0]), schedule[1..])
  }

  lemma {:induction false} RunKeeps(lab: Lab, s: State, rings: Rings, schedule: seq<nat>)
    requires Inv(lab, s, rings) && IsSchedule(s, schedule)
    ensures SameSizes(lab, s) && Inv(lab, After(lab, s, schedule), RingsAfterAll(lab, s, rings, schedule))
    decreases |schedule|
  {
    hide Inv, Next, RingsAfter;
    Membership(lab, s, rings);
    if schedule != [] {
      StepKeeps(lab, s, rings, schedule[0]);
      Membership(lab, Next(lab, s, schedule[0]), RingsAfter(lab, s, rings, schedule[0]));
      RunKeeps(lab, Next(lab, s, schedule[0]), RingsAfter(lab, s, rings, schedule[0]), schedule[1..]);
    }
  }

  /** List k is a proper ring, ordered, of its head and the elements that are present and hash to it. */
  ghost predicate ProperList(lab: Lab, s: State, k: nat, ring: seq<Node>)
    requires |s.threads| == |lab.pool| && |lab.heads| > 0 && PoolOK(lab.pool) && k < |lab.heads|
  {
    && IsRing(s.links, ring) && Proper(ring, lab.heads[k])
    && (forall x :: x in ring && x != lab.heads[k] ==> exists t: nat, i: nat :: IsElement(lab.pool, t, i) && x == lab.pool[t][i])
    && (forall t: nat, i: nat :: IsElement(lab.pool, t, i) ==>
          (lab.pool[t][i] in ring <==> Present(s.threads[t], i) && KeyHash(lab.pool[t][i].key.value, |lab.heads|) == k))
  }

  /**
   After any schedule: no look-up returned NULL, no delete 1, no length -1 and no pointer was bad;
   every list whose lock is free is a proper ordered ring with exactly the elements inserted and not
   yet deleted; a list whose lock is taken is as far rewritten as its owner has got.
   */
  lemma ListsSafe(lab: Lab, s0: State, schedule: seq<nat>) returns (rings: Rings)
    requires Start(lab, s0) && IsSchedule(s0, schedule)
    ensures var s := After(lab, s0, schedule);
            && !s.corrupt && |rings| == |s.locks| == |lab.heads| && |s.threads| == |lab.pool|
            && (forall k :: 0 <= k < |rings| && s.locks[k].None? ==> ProperList(lab, s, k, rings[k]))
            && (forall k :: 0 <= k < |rings| && s.locks[k].Some? ==>
                  s.locks[k].value < |s.threads| && SectionOK(s.links, rings[k], lab.pool[s.locks[k].value], s.threads[s.locks[k].value]))
  {
    hide Inv, ProperList, SectionOK, After;
    StartGood(lab, s0);
    RunKeeps(lab, s0, HeadsOnly(lab), schedule);
    rings := RingsAfterAll(lab, s0, HeadsOnly(lab), schedule);
    var s := After(lab, s0, schedule);
    Membership(lab, s, rings);
    NotCorrupt(lab, s, rings);
    forall k | 0 <= k < |rings| && s.locks[k].None? ensures ProperList(lab, s, k, rings[k]) {
      FreeListProper(lab, s, rings, k);
    }
    forall k | 0 <= k < |rings| && s.locks[k].Some?
      ensures s.locks[k].value < |s.threads| && SectionOK(s.links, rings[k], lab.pool[s.locks[k].value], s.threads[s.locks[k].value])
    {
      TakenList(lab, s, rings, k);
    }
  }

  lemma NotCorrupt(lab: Lab, s: State, rings: Rings)
    requires Inv(lab, s, rings)
    ensures !s.corrupt && lab.locking
  {
  }

  lemma FreeListProper(lab: Lab, s: State, rings: Rings, k: nat)
    requires Inv(lab, s, rings) && k < |rings| && k < |s.locks| && s.locks[k].None?
    ensures |s.threads| == |lab.pool| && |lab.heads| > 0 && PoolOK(lab.pool) && k < |lab.heads| && ProperList(lab, s, k, rings[k])
  {
    hide KeyHash, SectionOK, RingBut, Sorted, Keyed, LocksOK, Present;
    assert ListOK(lab, s.links, k, rings[k], s.locks[k], s.threads);
  }

  lemma TakenList(lab: Lab, s: State, rings: Rings, k: nat)
    requires Inv(lab, s, rings) && k < |rings| && k < |s.locks| && s.locks[k].Some?
    ensures |s.threads| == |lab.pool| && s.locks[k].value < |s.threads|
    ensures SectionOK(s.links, rings[k], lab.pool[s.locks[k].value], s.threads[s.locks[k].value])
  {
    hide KeyHash, SectionOK, RingBut, Sorted, Keyed, MembersOK;
    assert ListOK(lab, s.links, k, rings[k], s.locks[k], s.threads);
  }

  /** When all threads are done every list is its head alone. */
  lemma NobodyLeft(lab: Lab, s: State, rings: Rings, k: nat)
    requires Inv(lab, s, rings) && k < |rings| && forall t :: 0 <= t < |s.threads| ==> s.threads[t].phase.Done?
    ensures rings[k] == [lab.heads[k]] && IsRing(s.links, rings[k])
  {
    NobodyOwns(lab, s, rings, k);
    FreeListProper(lab, s, rings, k);
    hide Inv, KeyHash, Sorted, RingBut;
    var ring := rings[k];
    RingNoDup(s.links, ring);
    assert forall x :: x in ring ==> x == ring[0];
    if |ring| > 1 {
      SecondDiffers(ring);
    }
  }

  lemma NobodyOwns(lab: Lab, s: State, rings: Rings, k: nat)
    requires Inv(lab, s, rings) && k < |rings| && forall t :: 0 <= t < |s.threads| ==> s.threads[t].phase.Done?
    ensures k < |s.locks| && s.locks[k].None?
  {
    hide KeyHash, ListOK, MembersOK;
  }

  lemma SecondDiffers(ring: seq<Node>)
    requires NoDup(ring) && |ring| > 1
    ensures exists x :: x in ring && x != ring[0]
  {
    assert ring[1] in ring;
  }

  /**
   While thread t is in its critical section, no step of another thread writes to a node of t's
   list or to t's element, moves t or takes its lock.
   */
  lemma LockProtects(lab: Lab, s: State, rings: Rings, t: nat, u: nat)
    requires Inv(lab, s, rings) && t < |s.threads| && u < |s.threads| && t != u && !s.threads[t].at.Acquire?
    ensures SameSizes(lab, s)
    ensures var l := Target(lab.pool[t], s.threads[t].phase, |lab.heads|);
            var s' := Next(lab, s, u);
            && l < |rings| == |s.locks| == |s'.locks| && Agree(s.links, s'.links, rings[l])
            && (Element(lab.pool[t], s.threads[t].phase).Some? ==>
                  Agree(s.links, s'.links, [Element(lab.pool[t], s.threads[t].phase).value]))
            && |s'.threads| == |s.threads| && s'.threads[t] == s.threads[t] && s'.locks[l] == s.locks[l] == Some(t)
            && RingsAfter(lab, s, rings, u)[l] == rings[l]
  {
    hide Inv, KeyHash, SectionOK, Sorted, Keyed, Target, Element, SectionStep, RingAfter;
    Membership(lab, s, rings);
    OwnerFacts(lab, s, rings, t);
    TargetInRange(lab, s, rings, u);
    var k := Target(lab.pool[u], s.threads[u].phase, |lab.heads|);
    if !s.threads[u].at.Acquire? {
      OwnerFacts(lab, s, rings, u);
      if Inside(s.threads[u]) {
        SectionMoves(lab, s, rings, u);
        OthersKeepOff(lab, s, rings, t, u, Next(lab, s, u).links);
      }
    }
  }
}
