/** The debug allocator's queue of freed blocks: a ring buffer, and many threads that push to it and trim it. */
module FreeQueue {
  import opened Base

  const FREE_QUEUE_SIZE := 1024
  const MAX_ENTRIES := 4            // arraysize(entries)
  const ENTRY_SIZE := 160           // sizeof(MallocBlockQueueEntry) on LP64

  /** A freed block and its size. */
  datatype Entry = Entry(block: nat, size: nat)

  function Weight(e: Entry): nat {
    e.size + ENTRY_SIZE
  }

  function TotalWeight(s: seq<Entry>): nat {
    if s == [] then 0 else Weight(s[0]) + TotalWeight(s[1..])
  }

  lemma TotalWeightAppend(s: seq<Entry>, e: Entry)
    ensures TotalWeight(s + [e]) == TotalWeight(s) + Weight(e)
  {
    if s != [] {
      assert (s + [e])[1..] == s[1..] + [e];
      TotalWeightAppend(s[1..], e);
    }
  }

  /** The entries from index `back` up to `front`, around the end of the buffer if need be. */
  ghost function Slice(q: seq<Entry>, back: nat, front: nat): (s: seq<Entry>)
    requires back < |q| && front < |q|
    ensures |s| < |q|
  {
    if back <= front then q[back..front] else q[back..] + q[..front]
  }

  /** The index after this one in a buffer of n entries. */
  function After(i: nat, n: nat): nat {
    if i + 1 == n then 0 else i + 1
  }

  lemma PopSlice(q: seq<Entry>, back: nat, front: nat)
    requires back < |q| && front < |q| && back != front
    ensures Slice(q, back, front) == [q[back]] + Slice(q, After(back, |q|), front)
  {
  }

  lemma PushSlice(q: seq<Entry>, back: nat, front: nat, e: Entry)
    requires back < |q| && front < |q| && |Slice(q, back, front)| < |q| - 1
    ensures Slice(q[front := e], back, After(front, |q|)) == Slice(q, back, front) + [e]
  {
    var q' := q[front := e];
    if back <= front {
      if front + 1 < |q| {
        assert q'[back..front + 1] == q[back..front] + [e];
      } else {
        assert q'[back..] + q'[..0] == q[back..front] + [e];
      }
    } else {
      assert q'[back..] == q[back..] && q'[..front + 1] == q[..front] + [e];
    }
  }

  class FreeQueue {
    const q: array<Entry>
    var front: nat
    var back: nat

    ghost predicate Valid()
      reads this
    {
      q.Length == FREE_QUEUE_SIZE && front < FREE_QUEUE_SIZE && back < FREE_QUEUE_SIZE
    }

    /** The queued entries, oldest first. */
    ghost function Contents(): (s: seq<Entry>)
      reads this, q
      requires Valid()
      ensures |s| < FREE_QUEUE_SIZE
    {
      Slice(q[..], back, front)
    }

    constructor ()
      ensures Valid() && Contents() == [] && fresh(q)
    {
      q := new Entry[FREE_QUEUE_SIZE](_ => Entry(0, 0));
      front, back := 0, 0;
    }

    method Full() returns (b: bool)
      requires Valid()
      ensures b <==> |Contents()| == FREE_QUEUE_SIZE - 1
    {
      b := (front + 1) % FREE_QUEUE_SIZE == back;
    }

    method Push(e: Entry)
      requires Valid() && |Contents()| < FREE_QUEUE_SIZE - 1
      modifies this`front, q
      ensures Valid() && Contents() == old(Contents()) + [e]
    {
      PushSlice(q[..], back, front, e);
      ghost var was := q[..];
      q[front] := e;
      assert q[..] == was[front := e];
      hide Slice;
      front := (front + 1) % FREE_QUEUE_SIZE;
    }

    method Pop() returns (e: Entry)
      requires Valid() && Contents() != []
      modifies this`back
      ensures Valid() && e == old(Contents())[0] && Contents() == old(Contents())[1..]
    {
      e := q[back];
      PopSlice(q[..], back, front);
      hide Slice;
      back := (back + 1) % FREE_QUEUE_SIZE;
    }

    method Size() returns (n: nat)
      requires Valid()
      ensures n == |Contents()|
    {
      n := (front - back + FREE_QUEUE_SIZE) % FREE_QUEUE_SIZE;
    }
  }

  // ----- ProcessFreeQueue

  /** Where a thread is in ProcessFreeQueue. */
  datatype Pc =
    | Idle
    | Entering(block: Option<Entry>, limit: int)
    | Looping(entries: seq<Entry>, limit: int)
    | Freeing(entries: seq<Entry>, resume: bool, limit: int)
    | Relocking(limit: int)

  /** The int limit as it is compared with a size_t. */
  function AsSize(limit: int): int {
    if limit < 0 then limit + 0x1_0000_0000_0000_0000 else limit
  }

  /** Entries a thread has taken off the queue and not freed yet, or not pushed yet. */
  function Hands(pc: Pc): multiset<Entry> {
    match pc
    case Idle => multiset{}
    case Entering(b, _) => if b.Some? then multiset{b.value} else multiset{}
    case Looping(entries, _) => multiset(entries)
    case Freeing(entries, _, _) => multiset(entries)
    case Relocking(_) => multiset{}
  }

  /** How often `e` is in the hands of a thread. */
  function InHands(pcs: seq<Pc>, e: Entry): nat {
    if pcs == [] then 0 else Hands(pcs[0])[e] + InHands(pcs[1..], e)
  }

  lemma {:induction false} InHandsUpdate(pcs: seq<Pc>, t: nat, pc: Pc, e: Entry)
    requires t < |pcs|
    ensures InHands(pcs[t := pc], e) == InHands(pcs, e) - Hands(pcs[t])[e] + Hands(pc)[e]
  {
    if t == 0 {
      assert pcs[0 := pc][1..] == pcs[1..];
    } else {
      assert pcs[t := pc][1..] == pcs[1..][t - 1 := pc];
      InHandsUpdate(pcs[1..], t - 1, pc, e);
    }
  }

  lemma InHandsIdle(pcs: seq<Pc>, e: Entry)
    requires forall t :: 0 <= t < |pcs| ==> pcs[t] == Idle
    ensures InHands(pcs, e) == 0
  {
  }

  /** Each block handed in is queued, in some thread's hands, or freed: one of these, once. */
  ghost predicate Conserved(handedIn: multiset<Entry>, queued: seq<Entry>, pcs: seq<Pc>, freed: multiset<Entry>) {
    forall e :: handedIn[e] == multiset(queued)[e] + InHands(pcs, e) + freed[e]
  }

  /** One thread's step keeps the balance if it does so for what it touches. */
  lemma StepConserves(handedIn: multiset<Entry>, queued: seq<Entry>, pcs: seq<Pc>, freed: multiset<Entry>,
                      t: nat, pc: Pc, handedIn': multiset<Entry>, queued': seq<Entry>, freed': multiset<Entry>)
    requires Conserved(handedIn, queued, pcs, freed) && t < |pcs|
    requires forall e :: handedIn'[e] + multiset(queued)[e] + Hands(pcs[t])[e] + freed[e]
                      == handedIn[e] + multiset(queued')[e] + Hands(pc)[e] + freed'[e]
    ensures Conserved(handedIn', queued', pcs[t := pc], freed')
  {
    forall e ensures handedIn'[e] == multiset(queued')[e] + InHands(pcs[t := pc], e) + freed'[e] {
      InHandsUpdate(pcs, t, pc, e);
    }
  }

  /** The lock's owner is the one thread in the loop. */
  ghost predicate LockOK(pcs: seq<Pc>, lock: Option<nat>) {
    && (lock.Some? ==> lock.value < |pcs| && pcs[lock.value].Looping?)
    && (forall t :: 0 <= t < |pcs| && pcs[t].Looping? ==> lock == Some(t))
  }

  ghost predicate EntriesOK(pcs: seq<Pc>) {
    forall t :: 0 <= t < |pcs| ==> (pcs[t].Looping? ==> |pcs[t].entries| < MAX_ENTRIES) && (!pcs[t].Idle? ==> IsInt(pcs[t].limit))
  }

  /** int limits: what a caller can pass. */
  predicate IsInt(limit: int) {
    -0x8000_0000 <= limit < 0x8000_0000
  }

  /** A thread's turn; if it is idle it makes this call. */
  datatype Move = Move(t: nat, block: Option<Entry>, limit: int)

  /** The queue is full only right after the lock holder's push. */
  ghost predicate RoomOK(queued: seq<Entry>, pcs: seq<Pc>, lock: Option<nat>) {
    |queued| >= FREE_QUEUE_SIZE - 1 ==> lock.Some? && lock.value < |pcs| && pcs[lock.value].Looping? && pcs[lock.value].entries == []
  }

  /** After four pops the lock is given back for a while. */
  function AfterPop(entries: seq<Entry>, limit: int): Pc {
    if |entries| == MAX_ENTRIES then Freeing(entries, true, limit) else Looping(entries, limit)
  }

  lemma NotEmpty(queued: seq<Entry>, total: nat, limit: int)
    requires total == TotalWeight(queued) && AsSize(limit) >= 0 && (total > AsSize(limit) || |queued| == FREE_QUEUE_SIZE - 1)
    ensures queued != []
  {
  }

  lemma FirstWeighs(queued: seq<Entry>)
    requires queued != []
    ensures TotalWeight(queued) == Weight(queued[0]) + TotalWeight(queued[1..])
  {
  }

  lemma FirstCounts(queued: seq<Entry>)
    requires queued != []
    ensures multiset(queued) == multiset{queued[0]} + multiset(queued[1..])
  {
    assert queued == [queued[0]] + queued[1..];
  }

  /** Pushing moves the block from the thread's hands to the queue. */
  lemma PushConserves(handedIn: multiset<Entry>, queued: seq<Entry>, pcs: seq<Pc>, freed: multiset<Entry>, t: nat)
    requires Conserved(handedIn, queued, pcs, freed) && t < |pcs| && pcs[t].Entering?
    ensures var pc := pcs[t];
            Conserved(handedIn, queued + (if pc.block.Some? then [pc.block.value] else []), pcs[t := Looping([], pc.limit)], freed)
  {
    hide Conserved;
    var pc := pcs[t];
    StepConserves(handedIn, queued, pcs, freed, t, Looping([], pc.limit), handedIn,
                  queued + (if pc.block.Some? then [pc.block.value] else []), freed);
  }

  /** Popping moves the oldest entry to the thread's hands. */
  lemma PopConserves(handedIn: multiset<Entry>, queued: seq<Entry>, pcs: seq<Pc>, freed: multiset<Entry>, t: nat)
    requires Conserved(handedIn, queued, pcs, freed) && t < |pcs| && pcs[t].Looping? && queued != []
    ensures Conserved(handedIn, queued[1..], pcs[t := AfterPop(pcs[t].entries + [queued[0]], pcs[t].limit)], freed)
  {
    hide Conserved;
    FirstCounts(queued);
    StepConserves(handedIn, queued, pcs, freed, t, AfterPop(pcs[t].entries + [queued[0]], pcs[t].limit), handedIn, queued[1..], freed);
  }

  /** One entry freed. */
  function Rest(pc: Pc): Pc
    requires pc.Freeing? && pc.entries != []
  {
    Freeing(pc.entries[1..], pc.resume, pc.limit)
  }

  lemma FreeConserves(handedIn: multiset<Entry>, queued: seq<Entry>, pcs: seq<Pc>, freed: multiset<Entry>, t: nat)
    requires Conserved(handedIn, queued, pcs, freed) && t < |pcs| && pcs[t].Freeing? && pcs[t].entries != []
    ensures Conserved(handedIn, queued, pcs[t := Rest(pcs[t])], freed + multiset{pcs[t].entries[0]})
  {
    hide Conserved;
    FirstCounts(pcs[t].entries);
    StepConserves(handedIn, queued, pcs, freed, t, Rest(pcs[t]), handedIn, queued, freed + multiset{pcs[t].entries[0]});
  }

  /** A change of program counter that keeps what is in hand. */
  lemma MoveConserves(handedIn: multiset<Entry>, queued: seq<Entry>, pcs: seq<Pc>, freed: multiset<Entry>, t: nat, pc: Pc)
    requires Conserved(handedIn, queued, pcs, freed) && t < |pcs| && Hands(pc) == Hands(pcs[t])
    ensures Conserved(handedIn, queued, pcs[t := pc], freed)
  {
    hide Conserved;
    StepConserves(handedIn, queued, pcs, freed, t, pc, handedIn, queued, freed);
  }

  /** When no call is in progress, every block handed in is either still queued or has been freed, once. */
  lemma QuietBalance(handedIn: multiset<Entry>, queued: seq<Entry>, pcs: seq<Pc>, freed: multiset<Entry>)
    requires Conserved(handedIn, queued, pcs, freed) && forall t :: 0 <= t < |pcs| ==> pcs[t] == Idle
    ensures handedIn == multiset(queued) + freed
  {
    forall e ensures handedIn[e] == (multiset(queued) + freed)[e] {
      InHandsIdle(pcs, e);
    }
  }

  /** The limit 0 is met only by an empty queue. */
  lemma WithinLimit(queued: seq<Entry>, total: nat, limit: int)
    requires total == TotalWeight(queued) <= AsSize(limit)
    ensures limit == 0 ==> queued == []
  {
  }

  /** A thread that frees outside the lock goes on outside it. */
  lemma FreeingMoves(queued: seq<Entry>, pcs: seq<Pc>, lock: Option<nat>, t: nat, pc: Pc)
    requires t < |pcs| && pcs[t].Freeing? && LockOK(pcs, lock) && EntriesOK(pcs) && RoomOK(queued, pcs, lock)
    requires pc == Idle || pc == Relocking(pcs[t].limit) || (pcs[t].entries != [] && pc == Rest(pcs[t]))
    ensures LockOK(pcs[t := pc], lock) && EntriesOK(pcs[t := pc]) && RoomOK(queued, pcs[t := pc], lock)
  {
  }

  lemma NothingWeighs()
    ensures TotalWeight([]) == 0
  {
  }

  /** Stages still before a call that pops nothing more. */
  function StepsLeft(pc: Pc): nat {
    match pc
    case Freeing(_, resume, _) => if resume then 4 else 1
    case Relocking(_) => 3
    case Looping(_, _) => 2
    case _ => 0
  }

  // ----- what one turn does

  /** All that a turn can change. */
  datatype Shot = Shot(queued: seq<Entry>, total: int, lock: Option<nat>, pcs: seq<Pc>, handedIn: multiset<Entry>, freed: multiset<Entry>)

  /** ProcessFreeQueue is called: the block, if there is one, is in the thread's hands. */
  ghost predicate Called(v: Shot, v': Shot, t: nat, block: Option<Entry>, limit: int)
    requires t < |v.pcs|
  {
    v' == v.(pcs := v.pcs[t := Entering(block, limit)], handedIn := v.handedIn + if block.Some? then multiset{block.value} else multiset{})
  }

  /** The lock is taken and the block queued. */
  ghost predicate Entered(v: Shot, v': Shot, t: nat)
    requires t < |v.pcs| && v.pcs[t].Entering?
  {
    var block := v.pcs[t].block;
    var locked := v.(lock := Some(t), pcs := v.pcs[t := Looping([], v.pcs[t].limit)]);
    v' == if block.Some? then locked.(queued := v.queued + [block.value], total := v.total + block.value.size + 160) else locked
  }

  /** The oldest entry is taken off the queue; with the fourth one in hand the lock is given back. */
  ghost predicate Popped(v: Shot, v': Shot, t: nat)
    requires t < |v.pcs| && v.pcs[t].Looping?
  {
    v.queued != [] &&
    var entries := v.pcs[t].entries + [v.queued[0]];
    var shorter := v.(queued := v.queued[1..], total := v.total - v.queued[0].size - 160);
    v' == if |entries| == 4 then shorter.(lock := None, pcs := v.pcs[t := Freeing(entries, true, v.pcs[t].limit)])
          else shorter.(pcs := v.pcs[t := Looping(entries, v.pcs[t].limit)])
  }

  /** The loop is over: the lock is given back, and what is in hand is still to be freed. */
  ghost predicate LoopLeft(v: Shot, v': Shot, t: nat)
    requires t < |v.pcs| && v.pcs[t].Looping?
  {
    v' == v.(lock := None, pcs := v.pcs[t := Freeing(v.pcs[t].entries, false, v.pcs[t].limit)])
  }

  /** A round of the loop pops while the total is above the limit, an int compared as a 64-bit size, or 1023 entries are queued. */
  ghost predicate Looped(v: Shot, v': Shot, t: nat)
    requires t < |v.pcs| && v.pcs[t].Looping?
  {
    var limit := v.pcs[t].limit;
    var bound := if limit < 0 then limit + 0x1_0000_0000_0000_0000 else limit;
    if v.total > bound || |v.queued| == 1023 then Popped(v, v', t) else LoopLeft(v, v', t)
  }

  /** One entry in hand is freed; with none left the call returns or goes back for the lock. */
  ghost predicate Freed(v: Shot, v': Shot, t: nat)
    requires t < |v.pcs| && v.pcs[t].Freeing?
  {
    var pc := v.pcs[t];
    v' == if pc.entries != []
          then v.(freed := v.freed + multiset{pc.entries[0]}, pcs := v.pcs[t := Freeing(pc.entries[1..], pc.resume, pc.limit)])
          else v.(pcs := v.pcs[t := if pc.resume then Relocking(pc.limit) else Idle])
  }

  /** The lock is taken again, with nothing in hand. */
  ghost predicate Relocked(v: Shot, v': Shot, t: nat)
    requires t < |v.pcs| && v.pcs[t].Relocking?
  {
    v' == v.(lock := Some(t), pcs := v.pcs[t := Looping([], v.pcs[t].limit)])
  }

  /** One move of a thread; one that finds the lock taken, or that does not exist, changes nothing. */
  ghost predicate Moved(v: Shot, v': Shot, t: nat) {
    if t >= |v.pcs| then v' == v
    else
      match v.pcs[t]
      case Idle => v' == v
      case Entering(_, _) => if v.lock.None? then Entered(v, v', t) else v' == v
      case Looping(_, _) => Looped(v, v', t)
      case Freeing(_, _, _) => Freed(v, v', t)
      case Relocking(_) => if v.lock.None? then Relocked(v, v', t) else v' == v
  }

  /** A turn: an idle thread makes its call, any other goes on. */
  ghost predicate Turn(v: Shot, v': Shot, m: Move) {
    if m.t < |v.pcs| && v.pcs[m.t] == Idle then Called(v, v', m.t, m.block, m.limit) else Moved(v, v', m.t)
  }

  /** What is queued, in one thread's hands or freed, in a shot. */
  ghost function Sum(v: Shot, t: nat): multiset<Entry>
    requires t < |v.pcs|
  {
    multiset(v.queued) + Hands(v.pcs[t]) + v.freed
  }

  lemma PopKeepsSum(v: Shot, v': Shot, t: nat)
    requires t < |v.pcs| && v.pcs[t].Looping? && Popped(v, v', t)
    ensures |v'.pcs| == |v.pcs| && Sum(v', t) == Sum(v, t)
  {
    FirstCounts(v.queued);
    assert Hands(v'.pcs[t]) == multiset(v.pcs[t].entries) + multiset{v.queued[0]};
  }

  lemma FreeKeepsSum(v: Shot, v': Shot, t: nat)
    requires t < |v.pcs| && v.pcs[t].Freeing? && Freed(v, v', t)
    ensures |v'.pcs| == |v.pcs| && Sum(v', t) == Sum(v, t)
  {
    if v.pcs[t].entries != [] {
      FirstCounts(v.pcs[t].entries);
    }
  }

  /** A move between queue, hands and heap loses no entry. */
  lemma TurnKeepsSum(v: Shot, v': Shot, t: nat)
    requires t < |v.pcs| && Moved(v, v', t) && !v.pcs[t].Entering?
    ensures v'.handedIn == v.handedIn && |v'.pcs| == |v.pcs| && v'.pcs == v.pcs[t := v'.pcs[t]]
    ensures Sum(v', t) == Sum(v, t)
  {
    hide Sum;
    if v.pcs[t].Freeing? {
      FreeKeepsSum(v, v', t);
    } else if v.pcs[t].Looping? && v'.queued != v.queued {
      PopKeepsSum(v, v', t);
    } else {
      QuietKeepsSum(v, v', t);
    }
  }

  lemma QuietKeepsSum(v: Shot, v': Shot, t: nat)
    requires t < |v.pcs| == |v'.pcs| && v'.queued == v.queued && v'.freed == v.freed && Hands(v'.pcs[t]) == Hands(v.pcs[t])
    ensures Sum(v', t) == Sum(v, t)
  {
  }

  lemma AllFreed(v: Shot, t: nat)
    requires t < |v.pcs| && (v.pcs[t] == Idle || (v.pcs[t].Looping? && v.pcs[t].entries == []))
    ensures Sum(v, t) == multiset(v.queued) + v.freed
    ensures v.queued == [] ==> Sum(v, t) == v.freed
  {
  }

  /** Thread t trims the queue to nothing, and nobody else has the lock. */
  ghost predicate Closing(v: Shot, t: nat)
    requires t < |v.pcs|
  {
    var pc := v.pcs[t];
    && v.lock == (if pc.Looping? then Some(t) else None)
    && (pc == Idle || (!pc.Entering? && pc.limit == 0))
    && (pc == Idle || (pc.Freeing? && !pc.resume) ==> v.queued == [])
  }

  lemma ClosingTurn(v: Shot, v': Shot, t: nat)
    requires t < |v.pcs| && Moved(v, v', t) && Closing(v, t) && v.pcs[t] != Idle && v.total == TotalWeight(v.queued)
    ensures |v'.pcs| == |v.pcs| && Closing(v', t)
    ensures || |v'.queued| < |v.queued|
            || (v'.queued == v.queued && StepsLeft(v'.pcs[t]) < StepsLeft(v.pcs[t]))
            || (v'.queued == v.queued && v.pcs[t].Freeing? && v'.pcs[t].Freeing? && StepsLeft(v'.pcs[t]) == StepsLeft(v.pcs[t])
                && |v'.pcs[t].entries| < |v.pcs[t].entries|)
  {
  }

  lemma RoomWhenUnlocked(queued: seq<Entry>, pcs: seq<Pc>)
    requires RoomOK(queued, pcs, None)
    ensures |queued| < FREE_QUEUE_SIZE - 1
  {
  }

  class DebugAllocator {
    const queue: FreeQueue
    var freeQueueSize: nat
    var lock: Option<nat>
    var pcs: seq<Pc>
    ghost var handedIn: multiset<Entry>
    ghost var freed: multiset<Entry>

    ghost predicate Valid()
      reads this, queue, queue.q
    {
      && queue.Valid()
      && freeQueueSize == TotalWeight(queue.Contents())
      && LockOK(pcs, lock) && EntriesOK(pcs)
      && RoomOK(queue.Contents(), pcs, lock)
      && Conserved(handedIn, queue.Contents(), pcs, freed)
    }

    ghost function Now(): Shot
      reads this, queue, queue.q
      requires queue.Valid()
    {
      Shot(queue.Contents(), freeQueueSize, lock, pcs, handedIn, freed)
    }

    constructor (nThreads: nat)
      ensures Valid() && Now() == Shot([], 0, None, seq(nThreads, _ => Idle), multiset{}, multiset{})
    {
      queue := new FreeQueue();
      freeQueueSize := 0;
      lock := None;
      pcs := seq(nThreads, _ => Idle);
      handedIn, freed := multiset{}, multiset{};
      new;
      forall e ensures InHands(pcs, e) == 0 {
        InHandsIdle(pcs, e);
      }
    }

    /** A thread calls ProcessFreeQueue; without a block it only trims the queue. */
    method Call(t: nat, block: Option<Entry>, limit: int)
      requires Valid() && t < |pcs| && pcs[t] == Idle && IsInt(limit)
      modifies this`pcs, this`handedIn
      ensures Valid() && Called(old(Now()), Now(), t, block, limit)
    {
      hide FreeQueue.Contents, Conserved, TotalWeight;
      ghost var more := handedIn + if block.Some? then multiset{block.value} else multiset{};
      StepConserves(handedIn, queue.Contents(), pcs, freed, t, Entering(block, limit), more, queue.Contents(), freed);
      pcs := pcs[t := Entering(block, limit)];
      handedIn := more;
    }

    /** Take the lock, check that the queue is not full, and push. */
    method Enter(t: nat)
      requires Valid() && t < |pcs| && pcs[t].Entering? && lock.None?
      modifies this`pcs, this`lock, this`freeQueueSize, queue, queue.q
      ensures Valid() && Entered(old(Now()), Now(), t)
    {
      hide FreeQueue.Contents, Conserved, TotalWeight;
      var pc := pcs[t];
      lock := Some(t);
      var full := queue.Full();
      assert !full;
      ghost var queued := queue.Contents();
      if pc.block.Some? {
        TotalWeightAppend(queued, pc.block.value);
        freeQueueSize := freeQueueSize + Weight(pc.block.value);
        queue.Push(pc.block.value);
      } else {
        assert queued + [] == queued;
      }
      PushConserves(handedIn, queued, pcs, freed, t);
      pcs := pcs[t := Looping([], pc.limit)];
    }

    /** One round of the loop: pop the oldest entry; every fourth one is followed by giving the lock back for a while. */
    method PopOne(t: nat)
      requires Valid() && t < |pcs| && pcs[t].Looping? && queue.Contents() != []
      modifies this`pcs, this`lock, this`freeQueueSize, queue
      ensures Valid() && Popped(old(Now()), Now(), t)
    {
      hide FreeQueue.Contents, Conserved, TotalWeight;
      var pc := pcs[t];
      ghost var queued := queue.Contents();
      PopConserves(handedIn, queued, pcs, freed, t);
      FirstWeighs(queued);
      var e := queue.Pop();
      freeQueueSize := freeQueueSize - Weight(e);
      var entries := pc.entries + [e];
      if |entries| == MAX_ENTRIES {
        lock := None;
      }
      pcs := pcs[t := AfterPop(entries, pc.limit)];
    }

    /** Leave the loop: the lock is given back, the remaining entries are freed outside it. */
    method LeaveLoop(t: nat)
      requires Valid() && t < |pcs| && pcs[t].Looping? && |queue.Contents()| < FREE_QUEUE_SIZE - 1
      modifies this`pcs, this`lock
      ensures Valid() && LoopLeft(old(Now()), Now(), t)
    {
      hide FreeQueue.Contents, Conserved, TotalWeight;
      var pc := pcs[t];
      MoveConserves(handedIn, queue.Contents(), pcs, freed, t, Freeing(pc.entries, false, pc.limit));
      lock := None;
      pcs := pcs[t := Freeing(pc.entries, false, pc.limit)];
    }

    /**
     The loop's test and one round.  A round that pops never finds the queue empty; the round that
     leaves the loop leaves the total within the limit and room in the queue.
     */
    method LoopRound(t: nat)
      requires Valid() && t < |pcs| && pcs[t].Looping?
      modifies this`pcs, this`lock, this`freeQueueSize, queue
      ensures Valid() && Looped(old(Now()), Now(), t)
      ensures var out := pcs[t];
              out.Freeing? && !out.resume ==> |queue.Contents()| < 1023 && (0 <= out.limit ==> freeQueueSize <= out.limit)
      ensures pcs[t].Freeing? && !pcs[t].resume && pcs[t].limit == 0 ==> queue.Contents() == []
    {
      hide FreeQueue.Contents, Conserved, TotalWeight, RoomOK, LockOK;
      var limit := pcs[t].limit;
      var full := queue.Full();
      if freeQueueSize > AsSize(limit) || full {
        NotEmpty(queue.Contents(), freeQueueSize, limit);
        PopOne(t);
      } else {
        WithinLimit(queue.Contents(), freeQueueSize, limit);
        LeaveLoop(t);
      }
    }

    /** Outside the lock: free one entry, or return, or go back for the lock. */
    method FreeRound(t: nat)
      requires Valid() && t < |pcs| && pcs[t].Freeing?
      modifies this`pcs, this`freed
      ensures Valid() && Freed(old(Now()), Now(), t)
    {
      hide FreeQueue.Contents, Conserved, TotalWeight, RoomOK, LockOK, EntriesOK;
      var pc := pcs[t];
      ghost var queued := queue.Contents();
      if pc.entries != [] {
        var pc' := Rest(pc);
        FreeConserves(handedIn, queued, pcs, freed, t);
        FreeingMoves(queued, pcs, lock, t, pc');
        freed := freed + multiset{pc.entries[0]};
        pcs := pcs[t := pc'];
      } else {
        var pc' := if pc.resume then Relocking(pc.limit) else Idle;
        FreeingMoves(queued, pcs, lock, t, pc');
        MoveConserves(handedIn, queued, pcs, freed, t, pc');
        pcs := pcs[t := pc'];
      }
    }

    /** Take the lock again in the middle of the loop. */
    method Relock(t: nat)
      requires Valid() && t < |pcs| && pcs[t].Relocking? && lock.None?
      modifies this`pcs, this`lock
      ensures Valid() && Relocked(old(Now()), Now(), t)
    {
      hide FreeQueue.Contents, Conserved, TotalWeight;
      var pc' := Looping([], pcs[t].limit);
      MoveConserves(handedIn, queue.Contents(), pcs, freed, t, pc');
      lock := Some(t);
      pcs := pcs[t := pc'];
    }

    /** DanglingWriteChecker: ProcessFreeQueue(NULL, 0, 0), run without interruption, frees all that was queued. */
    method DanglingWriteChecker(t: nat)
      requires Valid() && t < |pcs| && pcs[t] == Idle && lock.None?
      modifies this`pcs, this`lock, this`freeQueueSize, this`freed, this`handedIn, queue, queue.q
      ensures Valid() && pcs == old(pcs) && handedIn == old(handedIn)
      ensures queue.Contents() == [] && freeQueueSize == 0 && freed == old(freed) + multiset(old(queue.Contents()))
    {
      hide FreeQueue.Contents, Conserved, TotalWeight, EntriesOK, RoomOK, LockOK, Sum, Hands, Moved, StepsLeft;
      ghost var sum := Sum(Now(), t);
      AllFreed(Now(), t);
      Call(t, None, 0);
      Enter(t);
      AllFreed(Now(), t);
      while pcs[t] != Idle
        invariant Valid() && t < |pcs| && pcs == old(pcs)[t := pcs[t]] && handedIn == old(handedIn)
        invariant Sum(Now(), t) == sum
        invariant Closing(Now(), t)
        decreases |queue.Contents()|, StepsLeft(pcs[t]), if pcs[t].Freeing? then |pcs[t].entries| else 0
      {
        ghost var v := Now();
        Step(t);
        TurnKeepsSum(v, Now(), t);
        ClosingTurn(v, Now(), t);
      }
      NothingWeighs();
      AllFreed(Now(), t);
    }

    /** One move of thread `t`; a thread that finds the lock taken spins. */
    method Step(t: nat)
      requires Valid()
      modifies this`pcs, this`lock, this`freeQueueSize, this`freed, queue, queue.q
      ensures Valid() && Moved(old(Now()), Now(), t)
    {
      hide FreeQueue.Contents, Conserved, TotalWeight, LockOK, EntriesOK, RoomOK;
      if t < |pcs| {
        match pcs[t] {
          case Idle =>
          case Entering(_, _) => if lock.None? { Enter(t); }
          case Looping(_, _) => LoopRound(t);
          case Freeing(_, _, _) => FreeRound(t);
          case Relocking(_) => if lock.None? { Relock(t); }
        }
      }
    }

    /** Any interleaving of calls and moves. */
    method Run(schedule: seq<Move>) returns (ghost shots: seq<Shot>)
      requires Valid() && forall i :: 0 <= i < |schedule| ==> IsInt(schedule[i].limit)
      modifies this`pcs, this`lock, this`freeQueueSize, this`freed, this`handedIn, queue, queue.q
      ensures Valid() && |shots| == |schedule| + 1 && shots[0] == old(Now()) && shots[|schedule|] == Now()
      ensures forall i :: 0 <= i < |schedule| ==> Turn(shots[i], shots[i + 1], schedule[i])
      ensures freeQueueSize == TotalWeight(queue.Contents()) && Conserved(handedIn, queue.Contents(), pcs, freed)
      ensures lock.None? ==> |queue.Contents()| < FREE_QUEUE_SIZE - 1
    {
      hide Called, Moved, FreeQueue.Contents, Conserved, TotalWeight, EntriesOK, RoomOK, LockOK;
      shots := [Now()];
      for n := 0 to |schedule|
        invariant Valid() && |shots| == n + 1 && shots[0] == old(Now()) && shots[n] == Now()
        invariant forall i :: 0 <= i < n ==> Turn(shots[i], shots[i + 1], schedule[i])
      {
        var m := schedule[n];
        ghost var v := Now();
        if m.t < |pcs| && pcs[m.t] == Idle {
          Call(m.t, m.block, m.limit);
        } else {
          Step(m.t);
        }
        assert Turn(v, Now(), m);
        shots := shots + [Now()];
      }
      if lock.None? {
        RoomWhenUnlocked(queue.Contents(), pcs);
      }
    }
  }
}
