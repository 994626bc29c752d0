/**
 The list lab as a machine: threads insert, measure, look up and delete elements of sorted
 lists that are split by a hash of the key, with one lock per list.

 A step of a thread is one access to shared memory: an attempt at a lock, one advance of a
 cursor, one pointer comparison, one pointer write, or an unlock.  Other threads may come in
 between any two of them, so every sched_yield of the lists falls between two steps.
 */
module ListMachine {
  import opened Base
  import opened Strings
  import opened SortedList

  /** Sum of the first `n` characters. */
  function CharSum(key: string, n: nat): nat
    requires n <= |key|
  {
    if n == 0 then 0 else CharSum(key, n - 1) + key[n - 1] as nat
  }

  /** What get_key_hash computes. */
  function KeyHash(key: string, nLists: nat): (h: nat)
    requires nLists > 0
    ensures h < nLists
  {
    if key == "coarse" then 0 else CharSum(key, |key|) / nLists % nLists
  }

  // ----- memory

  /** The prev and next words of all nodes. */
  datatype Links = Links(next: map<Node, Node?>, prev: map<Node, Node?>)

  /** `x->next`, and NULL where there is no node to read from. */
  function NextOf(m: Links, x: Node?): Node? {
    if x != null && x in m.next then m.next[x] else null
  }

  function PrevOf(m: Links, x: Node?): Node? {
    if x != null && x in m.prev then m.prev[x] else null
  }

  function SetNext(m: Links, x: Node, y: Node?): Links {
    m.(next := m.next[x := y])
  }

  function SetPrev(m: Links, x: Node, y: Node?): Links {
    m.(prev := m.prev[x := y])
  }

  // ----- threads

  /** The loop of list_thrd a thread is in, and its place in it. */
  datatype Phase = Inserting(i: nat) | Measuring(j: nat, len: int) | Deleting(i: nat) | Done

  /**
   The next access a thread will make.  `passed` counts the nodes the cursor has gone past,
   which the program does not keep but its loop does.
   */
  datatype At =
    | Acquire
    | Fetch                                   // lookup = list->next
    | Walk(lookup: Node?, passed: nat)        // the loop's test, and lookup = lookup->next
    | SetElementPrev(found: Node, passed: nat)
    | SetElementNext(found: Node, passed: nat)
    | LinkBefore(found: Node, passed: nat)   // lookup->prev->next = element
    | LinkAfter(found: Node, passed: nat)    // lookup->prev = element
    | CheckNext                               // element->next->prev == element
    | CheckPrev                               // element->prev->next == element
    | UnlinkAfter                             // element->next->prev = element->prev
    | UnlinkBefore                            // element->prev->next = element->next
    | CheckHead(lookup: Node?)                // lookup->prev == list
    | CheckNode(lookup: Node?, passed: nat)   // lookup->next->prev == lookup
    | Advance(found: Node, passed: nat)      // lookup = lookup->next; count++
    | Release

  datatype Thread = Thread(phase: Phase, at: At)

  type Pool = seq<seq<Node>>

  /** Every thread's elements, the list heads, and whether there is a --sync option. */
  datatype Lab = Lab(pool: Pool, heads: seq<Node>, locking: bool)

  /** `corrupt` is set by sig_corrupt, which ends the program; a segmentation fault ends there too. */
  datatype State = State(links: Links, locks: seq<Option<nat>>, threads: seq<Thread>, corrupt: bool)

  function ToDelete(i: nat, n: nat): Phase {
    if i < n then Deleting(i) else Done
  }

  function ToMeasure(j: nat, len: int, n: nat, nLists: nat): Phase {
    if j < nLists then Measuring(j, len) else ToDelete(0, n)
  }

  function ToInsert(i: nat, n: nat, nLists: nat): Phase {
    if i < n then Inserting(i) else ToMeasure(0, 0, n, nLists)
  }

  /** The phase after a critical section. */
  function NextPhase(phase: Phase, n: nat, nLists: nat): Phase {
    match phase
    case Inserting(i) => ToInsert(i + 1, n, nLists)
    case Measuring(j, len) => ToMeasure(j + 1, len, n, nLists)
    case Deleting(i) => ToDelete(i + 1, n)
    case Done => Done
  }

  /** The element an insertion or deletion is about. */
  function Element(row: seq<Node>, phase: Phase): Option<Node> {
    match phase
    case Inserting(i) => if i < |row| && row[i].key.Some? then Some(row[i]) else None
    case Deleting(i) => if i < |row| && row[i].key.Some? then Some(row[i]) else None
    case _ => None
  }

  /** The list whose lock a thread needs. */
  function Target(row: seq<Node>, phase: Phase, nLists: nat): nat
    requires nLists > 0
  {
    match phase
    case Measuring(j, _) => j
    case _ => if Element(row, phase).Some? then KeyHash(Element(row, phase).value.key.value, nLists) else 0
  }

  // ----- steps

  /** What a step in a critical section leads to; `Broken` is a corruption report or a bad pointer. */
  datatype Outcome = Go(links: Links, phase: Phase, at: At) | Broken

  /** A step inside SortedList_insert. */
  function InsertStep(m: Links, head: Node, e: Node, phase: Phase, at: At): Outcome
    requires e.key.Some?
  {
    match at
    case Fetch => Go(m, phase, Walk(NextOf(m, head), 1))
    case Walk(c, p) =>
      if c == null then Broken
      else if c == head then Go(m, phase, SetElementPrev(c, p))
      else if c.key.None? then Broken
      else if StrCmp(e.key.value, c.key.value) < 1 then Go(m, phase, Walk(NextOf(m, c), p + 1))
      else Go(m, phase, SetElementPrev(c, p))
    case SetElementPrev(c, p) => Go(SetPrev(m, e, PrevOf(m, c)), phase, SetElementNext(c, p))
    case SetElementNext(c, p) => Go(SetNext(m, e, c), phase, LinkBefore(c, p))
    case LinkBefore(c, p) =>
      if PrevOf(m, c) == null then Broken else Go(SetNext(m, PrevOf(m, c), e), phase, LinkAfter(c, p))
    case LinkAfter(c, p) => Go(SetPrev(m, c, e), phase, Release)
    case _ => Broken
  }

  /** A step inside SortedList_length; the count is added to the thread's total at the end. */
  function MeasureStep(m: Links, head: Node, phase: Phase, at: At): Outcome
    requires phase.Measuring?
  {
    match at
    case Fetch => Go(m, phase, CheckHead(NextOf(m, head)))
    case CheckHead(c) => if c == null || PrevOf(m, c) != head then Broken else Go(m, phase, CheckNode(c, 0))
    case CheckNode(c, n) =>
      if c == null then Broken
      else if c == head then Go(m, Measuring(phase.j, phase.len + n), Release)
      else if NextOf(m, c) == null || PrevOf(m, NextOf(m, c)) != c then Broken
      else Go(m, phase, Advance(c, n))
    case Advance(c, n) => Go(m, phase, CheckNode(NextOf(m, c), n + 1))
    case _ => Broken
  }

  /** A step inside SortedList_lookup and then SortedList_delete. */
  function DeleteStep(m: Links, head: Node, e: Node, phase: Phase, at: At): Outcome
    requires e.key.Some?
  {
    match at
    case Fetch => Go(m, phase, Walk(NextOf(m, head), 1))
    case Walk(c, p) =>
      if c == null || c == head || c.key.None? then Broken
      else if StrCmp(e.key.value, c.key.value) == 0 then Go(m, phase, CheckNext)
      else if StrCmp(e.key.value, c.key.value) < 1 then Go(m, phase, Walk(NextOf(m, c), p + 1))
      else Broken
    case CheckNext =>
      if NextOf(m, e) == null || PrevOf(m, NextOf(m, e)) != e then Broken else Go(m, phase, CheckPrev)
    case CheckPrev =>
      if PrevOf(m, e) == null || NextOf(m, PrevOf(m, e)) != e then Broken else Go(m, phase, UnlinkAfter)
    case UnlinkAfter =>
      if NextOf(m, e) == null then Broken else Go(SetPrev(m, NextOf(m, e), PrevOf(m, e)), phase, UnlinkBefore)
    case UnlinkBefore =>
      if PrevOf(m, e) == null then Broken else Go(SetNext(m, PrevOf(m, e), NextOf(m, e)), phase, Release)
    case _ => Broken
  }

  function SectionStep(m: Links, head: Node, row: seq<Node>, phase: Phase, at: At): Outcome {
    match phase
    case Measuring(_, _) => MeasureStep(m, head, phase, at)
    case Inserting(_) => if Element(row, phase).Some? then InsertStep(m, head, Element(row, phase).value, phase, at) else Broken
    case Deleting(_) => if Element(row, phase).Some? then DeleteStep(m, head, Element(row, phase).value, phase, at) else Broken
    case Done => Broken
  }

  /** Does the thread take no further step? */
  predicate Finished(th: Thread) {
    th.phase.Done?
  }

  predicate SameSizes(lab: Lab, s: State) {
    |s.threads| == |lab.pool| && |s.locks| == |lab.heads| > 0
  }

  /** The state after thread `t`'s step; a thread that finds its lock taken goes on waiting. */
  function Next(lab: Lab, s: State, t: nat): State
    requires SameSizes(lab, s) && t < |s.threads|
  {
    var th := s.threads[t];
    var k := Target(lab.pool[t], th.phase, |lab.heads|);
    if s.corrupt || th.phase.Done? || k >= |s.locks| then s
    else
      match th.at
      case Acquire =>
        if !lab.locking then s.(threads := s.threads[t := Thread(th.phase, Fetch)])
        else if s.locks[k].Some? then s
        else s.(locks := s.locks[k := Some(t)], threads := s.threads[t := Thread(th.phase, Fetch)])
      case Release =>
        s.(locks := s.locks[k := None],
           threads := s.threads[t := Thread(NextPhase(th.phase, |lab.pool[t]|, |lab.heads|), Acquire)])
      case _ =>
        match SectionStep(s.links, lab.heads[k], lab.pool[t], th.phase, th.at)
        case Broken => s.(corrupt := true)
        case Go(m, phase, at) => s.(links := m, threads := s.threads[t := Thread(phase, at)])
  }

  /** A schedule names the thread that moves at each step. */
  function After(lab: Lab, s: State, schedule: seq<nat>): (e: State)
    requires SameSizes(lab, s) && forall i :: 0 <= i < |schedule| ==> schedule[i] < |s.threads|
    ensures SameSizes(lab, e)
    decreases |schedule|
  {
    if schedule == [] then s else After(lab, Next(lab, s, schedule[0]), schedule[1..])
  }
}
