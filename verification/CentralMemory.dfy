/** Chains of free objects as they lie in memory: every object's first word points to the next one. */
module CentralMemory {
  import opened Base
  import opened CentralFreeList

  const NULL: Addr := 0

  /** The first words of objects. */
  type Words = map<Addr, Addr>

  /** From `head`, the words lead through `objs` to NULL. */
  ghost predicate IsList(next: Words, head: Addr, objs: Chain)
    decreases |objs|
  {
    if objs == [] then head == NULL
    else head == objs[0] != NULL && head in next && IsList(next, next[head], objs[1..])
  }

  /** The words of all addresses but those in `changed` are as before. */
  ghost predicate SameBut(next: Words, next': Words, changed: set<Addr>) {
    forall a :: a in next && a !in changed ==> a in next' && next'[a] == next[a]
  }

  /** A list none of whose objects was written to is still there. */
  lemma {:induction false} ListKept(next: Words, next': Words, changed: set<Addr>, head: Addr, objs: Chain)
    requires IsList(next, head, objs) && SameBut(next, next', changed) && forall a :: a in objs ==> a !in changed
    ensures IsList(next', head, objs)
    decreases |objs|
  {
    if objs != [] {
      ListKept(next, next', changed, next[head], objs[1..]);
    }
  }

  /** Objects on a list are real addresses with a first word. */
  lemma {:induction false} ListWords(next: Words, head: Addr, objs: Chain, i: nat)
    requires IsList(next, head, objs) && i < |objs|
    ensures objs[i] != NULL && objs[i] in next
    decreases |objs|
  {
    if i > 0 {
      ListWords(next, next[head], objs[1..], i - 1);
    }
  }

  /** What follows the i-th object. */
  lemma {:induction false} ListFrom(next: Words, head: Addr, objs: Chain, i: nat)
    requires IsList(next, head, objs) && i < |objs|
    ensures objs[i] in next && IsList(next, objs[i], objs[i..]) && IsList(next, next[objs[i]], objs[i + 1..])
    decreases |objs|
  {
    if i > 0 {
      ListFrom(next, next[head], objs[1..], i - 1);
      assert objs[1..][i - 1..] == objs[i..];
      assert objs[1..][i..] == objs[i + 1..];
    } else {
      assert objs[0..] == objs;
    }
  }

  /** Cutting a list after its k-th object, by writing NULL there. */
  lemma {:induction false} ListCut(next: Words, head: Addr, objs: Chain, k: nat)
    requires IsList(next, head, objs) && 0 < k <= |objs| && NoDup(objs)
    ensures objs[k - 1] in next && IsList(next[objs[k - 1] := NULL], head, objs[..k])
    decreases k
  {
    var last := objs[k - 1];
    ListFrom(next, head, objs, k - 1);
    var next' := next[last := NULL];
    if k == 1 {
      assert objs[..1][1..] == [];
    } else {
      var tail := objs[1..];
      assert NoDup(tail) by { assert forall i :: 0 <= i < |tail| ==> tail[i] == objs[i + 1]; }
      ListCut(next, next[head], tail, k - 1);
      assert objs[..k][1..] == tail[..k - 1];
      assert objs[0] != objs[k - 1];
    }
  }

  /** Hanging one list behind another, by writing to the last word of the first. */
  lemma {:induction false} ListJoin(next: Words, head: Addr, first: Chain, start: Addr, second: Chain)
    requires IsList(next, head, first) && IsList(next, start, second) && first != []
    requires NoDup(first) && forall a :: a in first ==> a !in second
    ensures first[|first| - 1] in next && IsList(next[first[|first| - 1] := start], head, first + second)
    decreases |first|
  {
    var last := first[|first| - 1];
    ListFrom(next, head, first, |first| - 1);
    var next' := next[last := start];
    if |first| == 1 {
      assert (first + second)[1..] == second;
      ListKept(next, next', {last}, start, second);
    } else {
      var tail := first[1..];
      assert NoDup(tail) by { assert forall i :: 0 <= i < |tail| ==> tail[i] == first[i + 1]; }
      assert forall a :: a in tail ==> a in first;
      ListJoin(next, next[head], tail, start, second);
      assert (first + second)[1..] == tail + second;
      assert first[0] != first[|first| - 1];
    }
  }
}
