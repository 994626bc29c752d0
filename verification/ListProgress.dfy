/** Progress of the list lab, and what becomes of it without locks. */
module ListProgress {
  import opened Base
  import opened SortedList
  import opened ListMachine
  import opened ListRings
  import opened ListInvariant
  import opened ListSteps
  import opened ListTheorems

  // ----- every run that does not wait ends

  /** Critical sections a thread with n elements still has before it. */
  function SectionsLeft(phase: Phase, n: nat, nLists: nat): int {
    match phase
    case Inserting(i) => n - i + nLists + n
    case Measuring(j, _) => nLists - j + n
    case Deleting(i) => n - i
    case Done => 0
  }

  /** Accesses left in the section, if no ring has more than `most` nodes. */
  function AccessesLeft(at: At, most: nat): int {
    match at
    case Acquire => 2 * most + 8
    case Fetch => 2 * most + 7
    case Walk(_, p) => 2 * most + 6 - p
    case SetElementPrev(_, _) => 5
    case SetElementNext(_, _) => 4
    case LinkBefore(_, _) => 3
    case LinkAfter(_, _) => 2
    case CheckNext => 5
    case CheckPrev => 4
    case UnlinkAfter => 3
    case UnlinkBefore => 2
    case CheckHead(_) => 2 * most + 6
    case CheckNode(_, p) => 2 * (most - p) + 5
    case Advance(_, p) => 2 * (most - p) + 4
    case Release => 1
  }

  function Rank(th: Thread, n: nat, nLists: nat, most: nat): int {
    if th.phase.Done? then 0 else SectionsLeft(th.phase, n, nLists) * (2 * most + 10) + AccessesLeft(th.at, most)
  }

  /** The ranks of the first `n` threads together. */
  ghost function TotalRank(lab: Lab, threads: seq<Thread>, n: nat): int
    requires |threads| == |lab.pool| && n <= |threads|
  {
    if n == 0 then 0
    else TotalRank(lab, threads, n - 1) + Rank(threads[n - 1], |lab.pool[n - 1]|, |lab.heads|, |Nodes(lab)|)
  }

  lemma {:induction false} OneRank(lab: Lab, threads: seq<Thread>, t: nat, th: Thread, n: nat)
    requires |threads| == |lab.pool| && n <= |threads| && t < |threads|
    ensures TotalRank(lab, threads[t := th], n) == TotalRank(lab, threads, n) +
            (if t < n then Rank(th, |lab.pool[t]|, |lab.heads|, |Nodes(lab)|) else 0)
            - (if t < n then Rank(threads[t], |lab.pool[t]|, |lab.heads|, |Nodes(lab)|) else 0)
  {
    hide Rank;
    if n > 0 {
      OneRank(lab, threads, t, th, n - 1);
    }
  }

  lemma {:induction false} RingSmall(ring: seq<Node>, nodes: set<Node>)
    requires NoDup(ring) && forall x :: x in ring ==> x in nodes
    ensures |ring| <= |nodes|
  {
    if ring != [] {
      var last := ring[|ring| - 1];
      var rest := ring[..|ring| - 1];
      forall x | x in rest ensures x in nodes - {last} {
        var i :| 0 <= i < |rest| && rest[i] == x;
        assert ring[i] == x && ring[i] in ring;
      }
      assert last in ring;
      RingSmall(rest, nodes - {last});
    }
  }

  /** A cursor never goes past more nodes than there are. */
  lemma CursorSmall(lab: Lab, s: State, rings: Rings, t: nat)
    requires Inv(lab, s, rings) && t < |s.threads|
    ensures s.threads[t].at.Walk? ==> s.threads[t].at.passed <= |Nodes(lab)|
    ensures s.threads[t].at.CheckNode? || s.threads[t].at.Advance? ==> s.threads[t].at.passed + 1 <= |Nodes(lab)|
  {
    hide Inv, MembersOK, LocksOK, KeyHash, Sorted, Nodes;
    hide Target, RingBut;
    var at := s.threads[t].at;
    if at.Walk? || at.CheckNode? || at.Advance? {
      Membership(lab, s, rings);
      OwnerFacts(lab, s, rings, t);
      var k := Target(lab.pool[t], s.threads[t].phase, |lab.heads|);
      RingNodes(lab, s, rings, k);
      RingNoDup(s.links, rings[k]);
      RingSmall(rings[k], Nodes(lab));
    }
  }

  lemma RingNodes(lab: Lab, s: State, rings: Rings, k: nat)
    requires Inv(lab, s, rings) && k < |rings| && IsRing(s.links, rings[k])
    ensures forall x :: x in rings[k] ==> x in Nodes(lab)
  {
    hide MembersOK, LocksOK, ListOK, KeyHash;
  }

  lemma RankPositive(lab: Lab, s: State, rings: Rings, t: nat)
    requires Inv(lab, s, rings) && t < |s.threads|
    ensures |s.threads| == |lab.pool| && Rank(s.threads[t], |lab.pool[t]|, |lab.heads|, |Nodes(lab)|) >= 0
  {
    hide Inv, Nodes, Rank;
    TargetInRange(lab, s, rings, t);
    CursorSmall(lab, s, rings, t);
    RankOfOne(s.threads[t], lab.pool[t], |lab.heads|, |Nodes(lab)|);
  }

  lemma RankOfOne(th: Thread, row: seq<Node>, nLists: nat, most: nat)
    requires PhaseOK(row, th.phase, nLists)
    requires th.at.Walk? ==> th.at.passed <= most
    requires th.at.CheckNode? || th.at.Advance? ==> th.at.passed + 1 <= most
    ensures Rank(th, |row|, nLists, most) >= 0
  {
    var left := SectionsLeft(th.phase, |row|, nLists);
    assert left >= 0;
    assert left * (2 * most + 10) >= 0;
  }

  lemma {:induction false} TotalPositive(lab: Lab, s: State, rings: Rings, n: nat)
    requires Inv(lab, s, rings) && |s.threads| == |lab.pool| && n <= |s.threads|
    ensures TotalRank(lab, s.threads, n) >= 0
  {
    hide Inv, Rank;
    if n > 0 {
      TotalPositive(lab, s, rings, n - 1);
      RankPositive(lab, s, rings, n - 1);
    }
  }

  /** The thread is not waiting for a lock that another one holds. */
  predicate CanMove(lab: Lab, s: State, t: nat)
    requires SameSizes(lab, s) && t < |s.threads|
  {
    var k := Target(lab.pool[t], s.threads[t].phase, |lab.heads|);
    !s.threads[t].phase.Done? && (s.threads[t].at.Acquire? ==> k < |s.locks| && s.locks[k].None?)
  }

  /** A step of such a thread brings it nearer to its end. */
  lemma OneStepNearer(lab: Lab, s: State, rings: Rings, t: nat)
    requires Inv(lab, s, rings) && t < |s.threads| && SameSizes(lab, s) && CanMove(lab, s, t)
    ensures |Next(lab, s, t).threads| == |s.threads| && Next(lab, s, t).threads == s.threads[t := Next(lab, s, t).threads[t]]
    ensures var n := |lab.pool[t]|;
            Rank(Next(lab, s, t).threads[t], n, |lab.heads|, |Nodes(lab)|) < Rank(s.threads[t], n, |lab.heads|, |Nodes(lab)|)
  {
    hide Inv, Nodes, Target, KeyHash, SectionOK, Sorted, Keyed;
    TargetInRange(lab, s, rings, t);
    NotCorrupt(lab, s, rings);
    CursorSmall(lab, s, rings, t);
    if Inside(s.threads[t]) {
      SectionMoves(lab, s, rings, t);
      SectionNearer(lab, s, t);
    } else if s.threads[t].at.Release? {
      NextPhaseNearer(s.threads[t].phase, lab.pool[t], |lab.heads|, |Nodes(lab)|);
    }
  }

  lemma SectionNearer(lab: Lab, s: State, t: nat)
    requires SameSizes(lab, s) && t < |s.threads| && Inside(s.threads[t])
    requires Target(lab.pool[t], s.threads[t].phase, |lab.heads|) < |lab.heads|
    requires var th := s.threads[t]; var k := Target(lab.pool[t], th.phase, |lab.heads|);
             SectionStep(s.links, lab.heads[k], lab.pool[t], th.phase, th.at).Go?
    requires s.threads[t].at.Walk? ==> s.threads[t].at.passed <= |Nodes(lab)|
    requires s.threads[t].at.CheckNode? || s.threads[t].at.Advance? ==> s.threads[t].at.passed + 1 <= |Nodes(lab)|
    ensures var th := s.threads[t]; var k := Target(lab.pool[t], th.phase, |lab.heads|);
            var r := SectionStep(s.links, lab.heads[k], lab.pool[t], th.phase, th.at);
            && SectionsLeft(r.phase, |lab.pool[t]|, |lab.heads|) == SectionsLeft(th.phase, |lab.pool[t]|, |lab.heads|)
            && AccessesLeft(r.at, |Nodes(lab)|) < AccessesLeft(th.at, |Nodes(lab)|) && !r.phase.Done?
  {
    hide Nodes, Target;
  }

  lemma NextPhaseNearer(phase: Phase, row: seq<Node>, nLists: nat, most: nat)
    requires PhaseOK(row, phase, nLists) && !phase.Done? && nLists > 0
    ensures Rank(Thread(NextPhase(phase, |row|, nLists), Acquire), |row|, nLists, most) < Rank(Thread(phase, Release), |row|, nLists, most)
  {
    var next := NextPhase(phase, |row|, nLists);
    var left, w := SectionsLeft(next, |row|, nLists), 2 * most + 10;
    assert SectionsLeft(phase, |row|, nLists) == left + 1;
    assert (left + 1) * w == left * w + w;
  }

  lemma RankDrops(lab: Lab, s: State, rings: Rings, t: nat)
    requires Inv(lab, s, rings) && t < |s.threads| && SameSizes(lab, s) && CanMove(lab, s, t)
    ensures |Next(lab, s, t).threads| == |s.threads|
    ensures TotalRank(lab, Next(lab, s, t).threads, |s.threads|) < TotalRank(lab, s.threads, |s.threads|)
  {
    hide Inv, Rank, Next, CanMove;
    OneStepNearer(lab, s, rings, t);
    OneRank(lab, s.threads, t, Next(lab, s, t).threads[t], |s.threads|);
  }

  /** No deadlock: while some thread is unfinished, one of them need not wait. */
  lemma SomeoneCanMove(lab: Lab, s: State, rings: Rings, u: nat) returns (t: nat)
    requires Inv(lab, s, rings) && u < |s.threads| && !s.threads[u].phase.Done?
    ensures SameSizes(lab, s) && t < |s.threads| && CanMove(lab, s, t)
  {
    hide KeyHash, ListOK, MembersOK, Target;
    TargetInRange(lab, s, rings, u);
    var k := Target(lab.pool[u], s.threads[u].phase, |lab.heads|);
    t := if s.locks[k].Some? then s.locks[k].value else u;
  }

  /** From every reachable state all threads can still finish. */
  lemma {:induction false} CanFinish(lab: Lab, s: State, rings: Rings) returns (schedule: seq<nat>)
    requires Inv(lab, s, rings)
    ensures SameSizes(lab, s) && IsSchedule(s, schedule)
    ensures forall t :: 0 <= t < |s.threads| && t < |After(lab, s, schedule).threads| ==> After(lab, s, schedule).threads[t].phase.Done?
    decreases if SameSizes(lab, s) then TotalRank(lab, s.threads, |s.threads|) else 0
  {
    hide Inv, Next, CanMove, RingsAfter;
    Membership(lab, s, rings);
    TotalPositive(lab, s, rings, |s.threads|);
    if u :| 0 <= u < |s.threads| && !s.threads[u].phase.Done? {
      var t := SomeoneCanMove(lab, s, rings, u);
      RankDrops(lab, s, rings, t);
      StepKeeps(lab, s, rings, t);
      Membership(lab, Next(lab, s, t), RingsAfter(lab, s, rings, t));
      var rest := CanFinish(lab, Next(lab, s, t), RingsAfter(lab, s, rings, t));
      schedule := [t] + rest;
      assert schedule[1..] == rest;
    } else {
      schedule := [];
    }
  }

  /** No step of the schedule is spent waiting. */
  predicate NoWaiting(lab: Lab, s: State, schedule: seq<nat>)
    requires SameSizes(lab, s) && forall i :: 0 <= i < |schedule| ==> schedule[i] < |s.threads|
    decreases |schedule|
  {
    schedule == [] || (CanMove(lab, s, schedule[0]) && NoWaiting(lab, Next(lab, s, schedule[0]), schedule[1..]))
  }

  /** A run in which nobody waits has at most as many steps as its first state's rank says. */
  lemma {:induction false} RunsAreShort(lab: Lab, s: State, rings: Rings, schedule: seq<nat>)
    requires Inv(lab, s, rings) && SameSizes(lab, s) && IsSchedule(s, schedule) && NoWaiting(lab, s, schedule)
    ensures |schedule| <= TotalRank(lab, s.threads, |s.threads|)
    decreases |schedule|
  {
    hide Inv, Next, CanMove, RingsAfter, TotalRank;
    TotalPositive(lab, s, rings, |s.threads|);
    if schedule != [] {
      var t := schedule[0];
      RankDrops(lab, s, rings, t);
      StepKeeps(lab, s, rings, t);
      Membership(lab, Next(lab, s, t), RingsAfter(lab, s, rings, t));
      RunsAreShort(lab, Next(lab, s, t), RingsAfter(lab, s, rings, t), schedule[1..]);
    }
  }

  // ----- without locks

  /** Two threads with one element each, one list, no --sync option. */
  ghost predicate Unprotected(lab: Lab, h: Node, a: Node, b: Node) {
    && lab == Lab([[a], [b]], [h], false)
    && h != a && h != b && a != b && h.key.None? && a.key.Some? && b.key.Some?
  }

  lemma OneList(key: string)
    ensures KeyHash(key, 1) == 0
  {
  }

  /** The two threads of such a lab. */
  ghost predicate Looks(lab: Lab, s: State, h: Node, a: Node, b: Node, th0: Thread, th1: Thread) {
    Unprotected(lab, h, a, b) && !s.corrupt && s.threads == [th0, th1] && |s.locks| == 1
  }

  /** Nobody has taken a step yet, and the list is empty. */
  ghost predicate NothingDone(lab: Lab, s: State, h: Node, a: Node, b: Node) {
    && Looks(lab, s, h, a, b, Thread(Inserting(0), Acquire), Thread(Inserting(0), Acquire))
    && Words(s.links, h, h, h) && a in s.links.next && b in s.links.next && a in s.links.prev && b in s.links.prev
  }

  ghost predicate Words(m: Links, x: Node, next: Node, prev: Node) {
    x in m.next && x in m.prev && m.next[x] == next && m.prev[x] == prev
  }

  /** One more step of thread t. */
  lemma Move(lab: Lab, s0: State, schedule: seq<nat>, t: nat) returns (s: State, more: seq<nat>)
    requires SameSizes(lab, s0) && IsSchedule(s0, schedule) && t < |s0.threads|
    ensures more == schedule + [t] && IsSchedule(s0, more) && |After(lab, s0, schedule).threads| == |s0.threads|
    ensures s == After(lab, s0, more) == Next(lab, After(lab, s0, schedule), t) && SameSizes(lab, s)
  {
    AfterOneMore(lab, s0, schedule, t);
    more := schedule + [t];
    s := After(lab, s0, more);
  }

  /** The first thread finds its place on the empty list and sets its element's words, but has not written to the list. */
  lemma FirstThread(lab: Lab, s0: State, h: Node, a: Node, b: Node) returns (s: State, w: seq<nat>)
    requires NothingDone(lab, s0, h, a, b)
    ensures SameSizes(lab, s0) && IsSchedule(s0, w) && s == After(lab, s0, w)
    ensures Looks(lab, s, h, a, b, Thread(Inserting(0), LinkBefore(h, 1)), Thread(Inserting(0), Acquire))
    ensures Words(s.links, h, h, h) && Words(s.links, a, h, h) && b in s.links.next && b in s.links.prev
  {
    OneList(a.key.value);
    hide KeyHash;
    s, w := Move(lab, s0, [], 0);
    assert s == s0.(threads := [Thread(Inserting(0), Fetch), Thread(Inserting(0), Acquire)]);
    s, w := Move(lab, s0, w, 0);
    s, w := Move(lab, s0, w, 0);
    assert s == s0.(threads := [Thread(Inserting(0), SetElementPrev(h, 1)), Thread(Inserting(0), Acquire)]);
    s, w := Move(lab, s0, w, 0);
    s, w := Move(lab, s0, w, 0);
  }

  /** The second thread inserts its element from beginning to end. */
  lemma SecondThread(lab: Lab, s0: State, v: seq<nat>, h: Node, a: Node, b: Node) returns (s: State, w: seq<nat>)
    requires Unprotected(lab, h, a, b) && SameSizes(lab, s0) && IsSchedule(s0, v) && |s0.threads| == 2
    requires var s1 := After(lab, s0, v);
             && Looks(lab, s1, h, a, b, Thread(Inserting(0), LinkBefore(h, 1)), Thread(Inserting(0), Acquire))
             && Words(s1.links, h, h, h) && Words(s1.links, a, h, h) && b in s1.links.next && b in s1.links.prev
    ensures IsSchedule(s0, w) && s == After(lab, s0, w)
    ensures Looks(lab, s, h, a, b, Thread(Inserting(0), LinkBefore(h, 1)), Thread(Measuring(0, 0), Acquire))
    ensures Words(s.links, h, b, b) && Words(s.links, a, h, h) && Words(s.links, b, h, h)
  {
    var s1, stuck := After(lab, s0, v), Thread(Inserting(0), LinkBefore(h, 1));
    OneList(b.key.value);
    hide KeyHash, After;
    s, w := Move(lab, s0, v, 1);
    assert s == s1.(threads := [stuck, Thread(Inserting(0), Fetch)]);
    s, w := Move(lab, s0, w, 1);
    s, w := Move(lab, s0, w, 1);
    assert s == s1.(threads := [stuck, Thread(Inserting(0), SetElementPrev(h, 1))]);
    s, w := Move(lab, s0, w, 1);
    s, w := Move(lab, s0, w, 1);
    s, w := Move(lab, s0, w, 1);
    assert Looks(lab, s, h, a, b, stuck, Thread(Inserting(0), LinkAfter(h, 1)));
    s, w := Move(lab, s0, w, 1);
    s, w := Move(lab, s0, w, 1);
  }

  /** The first thread goes on with what it had read: next now leads through both elements, prev does not. */
  lemma FirstAgain(lab: Lab, s0: State, v: seq<nat>, h: Node, a: Node, b: Node) returns (s: State, w: seq<nat>)
    requires Unprotected(lab, h, a, b) && SameSizes(lab, s0) && IsSchedule(s0, v) && |s0.threads| == 2
    requires var s1 := After(lab, s0, v);
             && Looks(lab, s1, h, a, b, Thread(Inserting(0), LinkBefore(h, 1)), Thread(Measuring(0, 0), Acquire))
             && Words(s1.links, h, b, b) && Words(s1.links, a, h, h) && Words(s1.links, b, h, h)
    ensures IsSchedule(s0, w) && s == After(lab, s0, w)
    ensures Looks(lab, s, h, a, b, Thread(Measuring(0, 0), Acquire), Thread(Measuring(0, 0), Acquire))
    ensures Words(s.links, h, b, a) && Words(s.links, a, h, h) && Words(s.links, b, a, h)
  {
    OneList(a.key.value);
    hide KeyHash, After;
    s, w := Move(lab, s0, v, 0);
    s, w := Move(lab, s0, w, 0);
    assert Looks(lab, s, h, a, b, Thread(Inserting(0), Release), Thread(Measuring(0, 0), Acquire));
    s, w := Move(lab, s0, w, 0);
  }

  /** Its length then reports corruption. */
  lemma FirstMeasures(lab: Lab, s0: State, v: seq<nat>, h: Node, a: Node, b: Node) returns (s: State, w: seq<nat>)
    requires Unprotected(lab, h, a, b) && SameSizes(lab, s0) && IsSchedule(s0, v) && |s0.threads| == 2
    requires var s1 := After(lab, s0, v);
             && Looks(lab, s1, h, a, b, Thread(Measuring(0, 0), Acquire), Thread(Measuring(0, 0), Acquire))
             && Words(s1.links, h, b, a) && Words(s1.links, a, h, h) && Words(s1.links, b, a, h)
    ensures IsSchedule(s0, w) && s == After(lab, s0, w) && s.corrupt
  {
    var s1, other := After(lab, s0, v), Thread(Measuring(0, 0), Acquire);
    hide KeyHash, After;
    s, w := Move(lab, s0, v, 0);
    s, w := Move(lab, s0, w, 0);
    assert s == s1.(threads := [Thread(Measuring(0, 0), CheckHead(b)), other]);
    s, w := Move(lab, s0, w, 0);
    s, w := Move(lab, s0, w, 0);
  }

  /** The locks are what makes the lists safe: without them, two threads and one list are enough for corruption. */
  lemma LocksMatter(lab: Lab, s0: State, h: Node, a: Node, b: Node) returns (schedule: seq<nat>)
    requires NothingDone(lab, s0, h, a, b)
    ensures SameSizes(lab, s0) && IsSchedule(s0, schedule) && After(lab, s0, schedule).corrupt
  {
    hide KeyHash, After;
    var s, w := FirstThread(lab, s0, h, a, b);
    s, w := SecondThread(lab, s0, w, h, a, b);
    s, w := FirstAgain(lab, s0, w, h, a, b);
    s, schedule := FirstMeasures(lab, s0, w, h, a, b);
  }
}
