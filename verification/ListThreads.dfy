/**
 The list lab on real nodes.  `Step` makes one access to shared memory for one thread and is shown
 to do what the machine's step does; `Run` plays any schedule.
 */
module ListThreads {
  import opened Base
  import opened Strings
  import opened SortedList
  import opened ListMachine
  import opened ListRings
  import opened ListInvariant
  import opened ListSteps
  import opened ListTheorems

  method GetKeyHash(key: string, nLists: nat) returns (h: nat)
    requires nLists > 0
    ensures h == KeyHash(key, nLists)
  {
    if key == "coarse" {
      return 0;
    }
    var sum: nat := 0;
    for i := 0 to |key|
      invariant sum == CharSum(key, i)
    {
      sum := sum + key[i] as nat;
    }
    return sum / nLists % nLists;
  }

  /** Heads of empty lists. */
  method MakeHeads(nLists: nat) returns (heads: seq<Node>)
    ensures |heads| == nLists && NoDup(heads)
    ensures forall k :: 0 <= k < |heads| ==> fresh(heads[k]) && heads[k].key == None && heads[k].next == heads[k].prev == heads[k]
  {
    heads := [];
    while |heads| < nLists
      invariant |heads| <= nLists && NoDup(heads)
      invariant forall k :: 0 <= k < |heads| ==> fresh(heads[k]) && heads[k].key == None && heads[k].next == heads[k].prev == heads[k]
      decreases nLists - |heads|
    {
      var head := new Node.Head();
      heads := heads + [head];
    }
  }

  function FreeLocks(nLists: nat): (locks: seq<Option<nat>>)
    ensures |locks| == nLists && forall k :: 0 <= k < nLists ==> locks[k] == None
  {
    seq(nLists, _ => None)
  }

  /** Every thread before its first insertion. */
  function FirstThreads(pool: Pool, nLists: nat): (threads: seq<Thread>)
    ensures |threads| == |pool| && forall t :: 0 <= t < |pool| ==> threads[t] == Thread(ToInsert(0, |pool[t]|, nLists), Acquire)
  {
    seq(|pool|, t requires 0 <= t < |pool| => Thread(ToInsert(0, |pool[t]|, nLists), Acquire))
  }

  /** Where a cursor may stand. */
  ghost predicate CursorIn(at: At, nodes: set<Node>) {
    match at
    case Walk(c, _) => c == null || c in nodes
    case SetElementPrev(c, _) => c in nodes
    case SetElementNext(c, _) => c in nodes
    case LinkBefore(c, _) => c in nodes
    case LinkAfter(c, _) => c in nodes
    case CheckHead(c) => c == null || c in nodes
    case CheckNode(c, _) => c == null || c in nodes
    case Advance(c, _) => c in nodes
    case _ => true
  }

  /** No word leads out of the lab's nodes. */
  ghost predicate Closed(m: Links, nodes: set<Node>) {
    && m.next.Keys == m.prev.Keys == nodes
    && (forall x :: x in nodes ==> m.next[x] == null || m.next[x] in nodes)
    && (forall x :: x in nodes ==> m.prev[x] == null || m.prev[x] in nodes)
  }

  lemma ClosedSet(m: Links, nodes: set<Node>, x: Node, y: Node?)
    requires Closed(m, nodes) && x in nodes && (y == null || y in nodes)
    ensures Closed(SetNext(m, x, y), nodes) && Closed(SetPrev(m, x, y), nodes)
  {
  }

  class ListLab {
    const pool: Pool
    const heads: seq<Node>
    const locking: bool
    var locks: seq<Option<nat>>
    var threads: seq<Thread>
    var corrupt: bool
    ghost const nodes: set<Node>

    ghost function TheLab(): Lab {
      Lab(pool, heads, locking)
    }

    ghost function Words(): (m: Links)
      reads nodes
      ensures m.next.Keys == m.prev.Keys == nodes
      ensures forall x :: x in nodes ==> m.next[x] == x.next && m.prev[x] == x.prev
    {
      Links(map x | x in nodes :: x.next, map x | x in nodes :: x.prev)
    }

    /** The state of the machine that memory and fields show. */
    ghost function Shown(): State
      reads this`locks, this`threads, this`corrupt, nodes
    {
      State(Words(), locks, threads, corrupt)
    }

    ghost predicate Shape()
      reads this`locks, this`threads, this`corrupt, nodes
    {
      && SameSizes(TheLab(), Shown()) && nodes == Nodes(TheLab()) && Closed(Words(), nodes)
      && forall t :: 0 <= t < |threads| ==> CursorIn(threads[t].at, nodes)
    }

    /** Empty lists, free locks, every thread at its first insertion. */
    constructor (pool: Pool, nLists: nat, locking: bool)
      requires nLists > 0 && PoolOK(pool)
      requires forall t: nat, i: nat :: IsElement(pool, t, i) ==> pool[t][i].next == null && pool[t][i].prev == null
      ensures Shape() && this.pool == pool && |heads| == nLists && this.locking == locking
      ensures locking ==> Start(TheLab(), Shown())
    {
      hide PoolOK, Words, Closed, Shape, Start, NoDup, ToInsert, FirstThreads, FreeLocks;
      var heads := MakeHeads(nLists);
      this.pool := pool;
      this.heads := heads;
      this.locking := locking;
      locks := FreeLocks(nLists);
      threads := FirstThreads(pool, nLists);
      corrupt := false;
      nodes := (set x | x in heads) + (set t, i | 0 <= t < |pool| && 0 <= i < |pool[t]| :: pool[t][i]);
      new;
      assert nodes == Nodes(TheLab());
      assert forall k :: 0 <= k < |heads| ==> heads[k].next == heads[k].prev == heads[k];
      hide Nodes;
      StartsClosed();
      StartsValid();
    }

    lemma StartsValid()
      requires nodes == Nodes(TheLab()) && |heads| > 0 && NoDup(heads) && PoolOK(pool)
      requires forall k :: 0 <= k < |heads| ==> heads[k].key.None?
      requires Closed(Words(), nodes) && forall k :: 0 <= k < |heads| ==> NextOf(Words(), heads[k]) == PrevOf(Words(), heads[k]) == heads[k]
      requires |locks| == |heads| && (forall k :: 0 <= k < |locks| ==> locks[k] == None) && !corrupt
      requires |threads| == |pool| && forall t :: 0 <= t < |pool| ==> threads[t] == Thread(ToInsert(0, |pool[t]|, |heads|), Acquire)
      ensures Shape() && (locking ==> Start(TheLab(), Shown()))
    {
      hide PoolOK, Closed, Nodes, NoDup, NextOf, PrevOf, Words;
    }

    /** At the start heads lead to themselves and elements nowhere. */
    lemma StartsClosed()
      requires nodes == Nodes(TheLab())
      requires forall k :: 0 <= k < |heads| ==> heads[k].next == heads[k].prev == heads[k]
      requires forall t: nat, i: nat :: IsElement(pool, t, i) ==> pool[t][i].next == null && pool[t][i].prev == null
      ensures Closed(Words(), nodes)
      ensures forall k :: 0 <= k < |heads| ==> NextOf(Words(), heads[k]) == PrevOf(Words(), heads[k]) == heads[k]
    {
      forall x | x in nodes ensures (x.next == null || x.next in nodes) && (x.prev == null || x.prev in nodes) {
        if x !in heads {
          var t: nat, i: nat :| IsElement(pool, t, i) && x == pool[t][i];
        }
      }
      assert forall k :: 0 <= k < |heads| ==> heads[k] in heads;
    }

    /** The list thread `t` works on. */
    method NeededList(t: nat) returns (k: nat)
      requires Shape() && t < |threads|
      ensures k == Target(pool[t], threads[t].phase, |heads|)
    {
      hide KeyHash;
      var e := Element(pool[t], threads[t].phase);
      if threads[t].phase.Measuring? {
        k := threads[t].phase.j;
      } else if e.Some? {
        k := GetKeyHash(e.value.key.value, |heads|);
      } else {
        k := 0;
      }
    }

    // ----- reading and writing the words of nodes

    method ReadNext(x: Node) returns (y: Node?)
      requires x in nodes && Closed(Words(), nodes)
      ensures y == NextOf(Words(), x) && (y == null || y in nodes)
    {
      y := x.next;
    }

    method ReadPrev(x: Node) returns (y: Node?)
      requires x in nodes && Closed(Words(), nodes)
      ensures y == PrevOf(Words(), x) && (y == null || y in nodes)
    {
      y := x.prev;
    }

    method WriteNext(x: Node, y: Node?)
      requires x in nodes && (y == null || y in nodes) && Closed(Words(), nodes)
      modifies x`next
      ensures Words() == SetNext(old(Words()), x, y) && Closed(Words(), nodes)
    {
      ghost var was := Words();
      x.next := y;
      hide Closed;
      assert Words().next == SetNext(was, x, y).next && Words().prev == SetNext(was, x, y).prev;
      ClosedSet(was, nodes, x, y);
    }

    method WritePrev(x: Node, y: Node?)
      requires x in nodes && (y == null || y in nodes) && Closed(Words(), nodes)
      modifies x`prev
      ensures Words() == SetPrev(old(Words()), x, y) && Closed(Words(), nodes)
    {
      ghost var was := Words();
      x.prev := y;
      hide Closed;
      assert Words().next == SetPrev(was, x, y).next && Words().prev == SetPrev(was, x, y).prev;
      ClosedSet(was, nodes, x, y);
    }

    /** One access of SortedList_insert. */
    method InsertAccess(head: Node, e: Node, phase: Phase, at: At) returns (ok: bool, after: At)
      requires head in nodes && e in nodes && e.key.Some? && CursorIn(at, nodes) && Closed(Words(), nodes)
      modifies nodes
      ensures var r := InsertStep(old(Words()), head, e, phase, at);
              && (ok <==> r.Go?) && (ok ==> r == Go(Words(), phase, after)) && (!ok ==> Words() == old(Words()))
      ensures Closed(Words(), nodes) && CursorIn(after, nodes)
    {
      hide StrCmp, Words, Closed, NextOf, PrevOf, SetNext, SetPrev;
      ok, after := true, Acquire;
      match at {
        case Fetch =>
          var c := ReadNext(head);
          after := Walk(c, 1);
        case Walk(c, p) =>
          if c == null {
            ok := false;
          } else if c == head {
            after := SetElementPrev(c, p);
          } else if c.key.None? {
            ok := false;
          } else if StrCmp(e.key.value, c.key.value) < 1 {
            var next := ReadNext(c);
            after := Walk(next, p + 1);
          } else {
            after := SetElementPrev(c, p);
          }
        case SetElementPrev(c, p) =>
          var before := ReadPrev(c);
          WritePrev(e, before);
          after := SetElementNext(c, p);
        case SetElementNext(c, p) =>
          WriteNext(e, c);
          after := LinkBefore(c, p);
        case LinkBefore(c, p) =>
          var before := ReadPrev(c);
          if before == null {
            ok := false;
          } else {
            WriteNext(before, e);
            after := LinkAfter(c, p);
          }
        case LinkAfter(c, p) =>
          WritePrev(c, e);
          after := Release;
        case _ => ok := false;
      }
    }

    /** One access of SortedList_length. */
    method MeasureAccess(head: Node, phase: Phase, at: At) returns (ok: bool, next: Phase, after: At)
      requires head in nodes && phase.Measuring? && CursorIn(at, nodes) && Closed(Words(), nodes)
      ensures var r := MeasureStep(Words(), head, phase, at);
              (ok <==> r.Go?) && (ok ==> r == Go(Words(), next, after))
      ensures CursorIn(after, nodes)
    {
      hide Words, Closed, NextOf, PrevOf;
      ok, next, after := true, phase, Acquire;
      match at {
        case Fetch =>
          var c := ReadNext(head);
          after := CheckHead(c);
        case CheckHead(c) =>
          ok := false;
          if c != null {
            var before := ReadPrev(c);
            ok, after := before == head, CheckNode(c, 0);
          }
        case CheckNode(c, n) =>
          ok := false;
          if c == head {
            ok, next, after := true, Measuring(phase.j, phase.len + n), Release;
          } else if c != null {
            var x := ReadNext(c);
            if x != null {
              var back := ReadPrev(x);
              ok, after := back == c, Advance(c, n);
            }
          }
        case Advance(c, n) =>
          var x := ReadNext(c);
          after := CheckNode(x, n + 1);
        case _ => ok := false;
      }
    }

    /** One access of SortedList_lookup or SortedList_delete. */
    method DeleteAccess(head: Node, e: Node, phase: Phase, at: At) returns (ok: bool, after: At)
      requires head in nodes && e in nodes && e.key.Some? && CursorIn(at, nodes) && Closed(Words(), nodes)
      modifies nodes
      ensures var r := DeleteStep(old(Words()), head, e, phase, at);
              && (ok <==> r.Go?) && (ok ==> r == Go(Words(), phase, after)) && (!ok ==> Words() == old(Words()))
      ensures Closed(Words(), nodes) && CursorIn(after, nodes)
    {
      hide StrCmp, Words, Closed, NextOf, PrevOf, SetNext, SetPrev;
      ok, after := true, Acquire;
      if at.Fetch? {
        var c := ReadNext(head);
        after := Walk(c, 1);
      } else if at.Walk? {
        var c, p := at.lookup, at.passed;
        if c == null || c == head || c.key.None? {
          ok := false;
        } else if StrCmp(e.key.value, c.key.value) == 0 {
          after := CheckNext;
        } else if StrCmp(e.key.value, c.key.value) < 1 {
          var next := ReadNext(c);
          after := Walk(next, p + 1);
        } else {
          ok := false;
        }
      } else {
        ok, after := UnlinkAccess(head, e, phase, at);
      }
    }

    /** One access of SortedList_delete. */
    method UnlinkAccess(head: Node, e: Node, phase: Phase, at: At) returns (ok: bool, after: At)
      requires head in nodes && e in nodes && e.key.Some? && Closed(Words(), nodes) && !at.Fetch? && !at.Walk?
      modifies nodes
      ensures var r := DeleteStep(old(Words()), head, e, phase, at);
              && (ok <==> r.Go?) && (ok ==> r == Go(Words(), phase, after)) && (!ok ==> Words() == old(Words()))
      ensures Closed(Words(), nodes) && CursorIn(after, nodes)
    {
      hide StrCmp, Words, Closed, NextOf, PrevOf, SetNext, SetPrev;
      ok, after := false, Acquire;
      var next := ReadNext(e);
      var prev := ReadPrev(e);
      match at {
        case CheckNext =>
          if next != null {
            var back := ReadPrev(next);
            ok, after := back == e, CheckPrev;
          }
        case CheckPrev =>
          if prev != null {
            var forth := ReadNext(prev);
            ok, after := forth == e, UnlinkAfter;
          }
        case UnlinkAfter =>
          if next != null {
            WritePrev(next, prev);
            ok, after := true, UnlinkBefore;
          }
        case UnlinkBefore =>
          if prev != null {
            WriteNext(prev, next);
            ok, after := true, Release;
          }
        case _ =>
      }
    }

    /** One access in a critical section. */
    method Access(head: Node, row: seq<Node>, phase: Phase, at: At) returns (ok: bool, next: Phase, after: At)
      requires head in nodes && CursorIn(at, nodes) && Closed(Words(), nodes)
      requires var e := Element(row, phase); e.Some? ==> e.value in nodes && e.value.key.Some?
      modifies nodes
      ensures var r := SectionStep(old(Words()), head, row, phase, at);
              && (ok <==> r.Go?) && (ok ==> r == Go(Words(), next, after)) && (!ok ==> Words() == old(Words()))
      ensures Closed(Words(), nodes) && CursorIn(after, nodes)
    {
      hide InsertStep, DeleteStep, MeasureStep, Closed, CursorIn, Words, Element;
      ok, next, after := false, phase, at;
      var e := Element(row, phase);
      match phase {
        case Measuring(_, _) => ok, next, after := MeasureAccess(head, phase, at);
        case Inserting(_) => if e.Some? { ok, after := InsertAccess(head, e.value, phase, at); }
        case Deleting(_) => if e.Some? { ok, after := DeleteAccess(head, e.value, phase, at); }
        case Done =>
      }
    }

    /** One access in thread t's critical section on list k; a broken list ends the program. */
    method SectionAccess(t: nat, k: nat)
      requires Shape() && t < |threads| && k < |heads| && Inside(threads[t])
      modifies this`threads, this`corrupt, nodes
      ensures Shape() && |threads| == old(|threads|)
      ensures Shown() == match SectionStep(old(Words()), heads[k], pool[t], old(threads[t].phase), old(threads[t].at))
                         case Broken => old(Shown()).(corrupt := true)
                         case Go(m, phase, at) => old(Shown()).(links := m, threads := old(threads)[t := Thread(phase, at)])
    {
      hide SectionStep, Closed, CursorIn, Words, Nodes, Element;
      ElementIsNode(TheLab(), t, threads[t].phase);
      assert heads[k] in heads;
      var ok, next, after := Access(heads[k], pool[t], threads[t].phase, threads[t].at);
      if ok {
        threads := threads[t := Thread(next, after)];
      } else {
        corrupt := true;
      }
    }

    /** One move of thread t. */
    method Step(t: nat)
      requires Shape() && t < |threads|
      modifies this`locks, this`threads, this`corrupt, nodes
      ensures Shape() && |threads| == old(|threads|) && Shown() == Next(TheLab(), old(Shown()), t)
    {
      hide Closed, Target, SectionStep, Nodes, Words, KeyHash, NextPhase;
      var k := NeededList(t);
      var th := threads[t];
      if !corrupt && !th.phase.Done? && k < |locks| {
        if th.at.Acquire? {
          if !locking {
            threads := threads[t := Thread(th.phase, Fetch)];
          } else if locks[k].None? {
            locks := locks[k := Some(t)];
            threads := threads[t := Thread(th.phase, Fetch)];
          }
        } else if th.at.Release? {
          locks := locks[k := None];
          threads := threads[t := Thread(NextPhase(th.phase, |pool[t]|, |heads|), Acquire)];
        } else {
          SectionAccess(t, k);
        }
      }
    }

    /** Any schedule, with or without locks. */
    method Run(schedule: seq<nat>)
      requires Shape() && forall i :: 0 <= i < |schedule| ==> schedule[i] < |threads|
      modifies this`locks, this`threads, this`corrupt, nodes
      ensures Shape() && |threads| == old(|threads|)
      ensures Shown() == After(TheLab(), old(Shown()), schedule)
    {
      hide Closed, Next, Nodes, Words;
      ghost var s := Shown();
      for n := 0 to |schedule|
        invariant Shape() && |threads| == |s.threads| && IsSchedule(s, schedule[..n])
        invariant Shown() == After(TheLab(), s, schedule[..n])
      {
        Step(schedule[n]);
        assert schedule[..n + 1] == schedule[..n] + [schedule[n]];
        AfterOneMore(TheLab(), s, schedule[..n], schedule[n]);
      }
      assert schedule[..|schedule|] == schedule;
    }

    /**
     Any schedule from the start with a --sync option: nobody reports corruption, and every list
     whose lock is free is a proper ring of nodes in order.
     */
    method RunLocked(schedule: seq<nat>) returns (ghost rings: Rings)
      requires Shape() && Start(TheLab(), Shown()) && forall i :: 0 <= i < |schedule| ==> schedule[i] < |threads|
      modifies this`locks, this`threads, this`corrupt, nodes
      ensures Shape() && Shown() == After(TheLab(), old(Shown()), schedule)
      ensures !corrupt && |rings| == |locks| == |heads| && Inv(TheLab(), Shown(), rings)
      ensures forall k :: 0 <= k < |rings| && locks[k].None? ==> Ring(rings[k]) && Sorted(rings[k]) && rings[k][0] == heads[k]
    {
      hide Closed, After, Next, Start, Inv, Words, Nodes;
      ghost var s := Shown();
      StartGood(TheLab(), s);
      Run(schedule);
      RunKeeps(TheLab(), s, HeadsOnly(TheLab()), schedule);
      rings := RingsAfterAll(TheLab(), s, HeadsOnly(TheLab()), schedule);
      Membership(TheLab(), Shown(), rings);
      NotCorrupt(TheLab(), Shown(), rings);
      forall k | 0 <= k < |rings| && locks[k].None? ensures Ring(rings[k]) && Sorted(rings[k]) && rings[k][0] == heads[k] {
        FreeListProper(TheLab(), Shown(), rings, k);
        RealRing(rings[k]);
      }
    }

    /** A ring in the words is a ring of nodes. */
    lemma RealRing(ring: seq<Node>)
      requires IsRing(Words(), ring) && Keyed(ring)
      ensures Ring(ring)
    {
    }

    /** main's check after joining all threads: every list is empty and the total length is 0. */
    method FinalCheck(ghost rings: Rings) returns (total: int, ok: bool)
      requires Shape() && Inv(TheLab(), Shown(), rings) && forall t :: 0 <= t < |threads| ==> threads[t].phase.Done?
      ensures ok && total == 0 && |rings| == |heads| && forall k :: 0 <= k < |rings| ==> rings[k] == [heads[k]]
    {
      hide Inv, Closed;
      Membership(TheLab(), Shown(), rings);
      forall k | 0 <= k < |heads| ensures Ring(rings[k]) && rings[k] == [heads[k]] {
        NobodyLeft(TheLab(), Shown(), rings, k);
        NobodyOwns(TheLab(), Shown(), rings, k);
        FreeListProper(TheLab(), Shown(), rings, k);
        RealRing(rings[k]);
      }
      total, ok := CheckLists(heads, rings);
    }
  }

  /** What SortedList_length says of a ring. */
  ghost function Measured(ring: seq<Node>): int
    reads ring
  {
    if PrevRing(ring) then |ring| - 1 else -1
  }

  /** main's loop: on any lists, it is content exactly if all are intact and empty, and stops at the first one that is not. */
  method CheckLists(heads: seq<Node>, ghost rings: seq<seq<Node>>) returns (total: int, ok: bool)
    requires |rings| == |heads| && forall k :: 0 <= k < |heads| ==> NextRing(rings[k]) && rings[k][0] == heads[k]
    ensures ok <==> forall k :: 0 <= k < |heads| ==> PrevRing(rings[k]) && rings[k] == [heads[k]]
    ensures ok ==> total == 0
    ensures !ok ==> exists k :: 0 <= k < |heads| && total == Measured(rings[k]) != 0 && forall l :: 0 <= l < k ==> Measured(rings[l]) == 0
  {
    total, ok := 0, true;
    var k := 0;
    while k < |heads| && ok
      invariant 0 <= k <= |heads|
      invariant ok ==> total == 0 && forall l :: 0 <= l < k ==> Measured(rings[l]) == 0
      invariant !ok ==> 0 < k && total == Measured(rings[k - 1]) != 0 && forall l :: 0 <= l < k - 1 ==> Measured(rings[l]) == 0
      decreases |heads| - k, ok
    {
      var len := Length(heads[k], rings[k]);
      total := total + len;
      if total != 0 {
        ok := false;
      }
      k := k + 1;
    }
    forall l | 0 <= l < |heads| ensures Measured(rings[l]) == 0 <==> PrevRing(rings[l]) && rings[l] == [heads[l]] {
    }
    if !ok {
      assert Measured(rings[k - 1]) != 0;
    }
  }

  lemma ElementIsNode(lab: Lab, t: nat, phase: Phase)
    requires t < |lab.pool|
    ensures Element(lab.pool[t], phase).Some? ==> Element(lab.pool[t], phase).value in Nodes(lab)
    ensures Element(lab.pool[t], phase).Some? ==> Element(lab.pool[t], phase).value.key.Some?
    ensures forall x :: x in lab.heads ==> x in Nodes(lab)
  {
  }
}
