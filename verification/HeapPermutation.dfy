/** Heap's algorithm as the script runs it: recursion on a shrinking prefix, with a swap after every recursive call. */
module HeapPermutation {
  import opened Base

  /** The first `size` elements rotated right by `k` places. */
  function RotateRight<T>(s: seq<T>, size: nat, k: nat): (r: seq<T>)
    requires size <= |s| && k <= size
    ensures |r| == |s|
  {
    seq(|s|, j requires 0 <= j < |s| => if j >= size then s[j] else if j >= k then s[j - k] else s[j + size - k])
  }

  /** The array at the start of round `k` of the loop, for an even `size`: the swaps so far have moved one element out. */
  function Shifted<T>(s: seq<T>, size: nat, k: nat): (r: seq<T>)
    requires 1 <= size <= |s| && k <= size
    ensures |r| == |s|
  {
    if k == 0 then s
    else if k == size then RotateRight(s, size, 1)
    else seq(|s|, j requires 0 <= j < |s| =>
               if j >= size then s[j]
               else if j == 0 then s[size - 1]
               else if j < k then s[j - 1]
               else if j < size - 1 then s[j]
               else s[k - 1])
  }

  /** The array at the start of round `k`. */
  function Round<T>(s: seq<T>, size: nat, k: nat): (r: seq<T>)
    requires 1 <= size <= |s| && k <= size
    ensures |r| == |s|
  {
    if size % 2 == 1 then RotateRight(s, size, k) else Shifted(s, size, k)
  }

  /** The array when the call returns: as before for an odd size, rotated right by one for an even size. */
  function Final<T>(s: seq<T>, size: nat): (r: seq<T>)
    requires size <= |s|
    ensures |r| == |s|
  {
    if size % 2 == 1 || size == 0 then s else RotateRight(s, size, 1)
  }

  function Swap<T>(s: seq<T>, i: nat, j: nat): (r: seq<T>)
    requires i < |s| && j < |s|
    ensures |r| == |s|
  {
    s[i := s[j]][j := s[i]]
  }

  /** One round of the loop: the recursive call's effect and then the swap lead from one round to the next. */
  lemma RoundStep<T>(s: seq<T>, size: nat, k: nat)
    requires 2 <= size <= |s| && k < size
    ensures Swap(Final(Round(s, size, k), size - 1), if size % 2 == 1 then 0 else k, size - 1) == Round(s, size, k + 1)
  {
    hide Swap, RotateRight, Shifted;
    if size % 2 == 1 {
      OddStep(s, size, k);
    } else if k == 0 {
      NothingShifted(s, size);
      EvenFirst(s, size);
    } else if k + 1 < size {
      EvenMiddle(s, size, k);
    } else {
      EvenLast(s, size);
    }
  }

  /** Odd size: the recursive call turns the shorter prefix, and swapping its first element with the last turns the whole. */
  lemma OddStep<T>(s: seq<T>, size: nat, k: nat)
    requires 2 <= size <= |s| && k < size && size % 2 == 1
    ensures Swap(RotateRight(RotateRight(s, size, k), size - 1, 1), 0, size - 1) == RotateRight(s, size, k + 1)
  {
    var r := RotateRight(s, size, k);
    var t := RotateRight(r, size - 1, 1);
    var swapped, next := Swap(t, 0, size - 1), RotateRight(s, size, k + 1);
    forall j | 0 <= j < |s| ensures swapped[j] == next[j] {
      if j == 0 {
        assert swapped[0] == r[size - 1];
      } else if j < size - 1 {
        assert t[j] == r[j - 1];
      } else if j == size - 1 {
        assert swapped[j] == t[0] == r[size - 2];
      }
    }
  }

  lemma NothingShifted<T>(s: seq<T>, size: nat)
    requires 1 <= size <= |s|
    ensures Shifted(s, size, 0) == s
  {
  }

  lemma EvenFirst<T>(s: seq<T>, size: nat)
    requires 2 <= size <= |s| && size % 2 == 0
    ensures Swap(s, 0, size - 1) == Shifted(s, size, 1)
  {
  }

  lemma EvenMiddle<T>(s: seq<T>, size: nat, k: nat)
    requires 2 <= size <= |s| && 0 < k && k + 1 < size
    ensures Swap(Shifted(s, size, k), k, size - 1) == Shifted(s, size, k + 1)
  {
    var swapped, next := Swap(Shifted(s, size, k), k, size - 1), Shifted(s, size, k + 1);
    assert forall j :: 0 <= j < |s| ==> swapped[j] == next[j];
  }

  lemma EvenLast<T>(s: seq<T>, size: nat)
    requires 2 <= size <= |s|
    ensures Swap(Shifted(s, size, size - 1), size - 1, size - 1) == Shifted(s, size, size)
  {
    var last, next := Shifted(s, size, size - 1), RotateRight(s, size, 1);
    assert forall j :: 0 <= j < |s| ==> last[j] == next[j];
  }

  lemma RoundEnds<T>(s: seq<T>, size: nat)
    requires 2 <= size <= |s|
    ensures Round(s, size, 0) == s && Round(s, size, size) == Final(s, size)
  {
  }

  /** What the rounds before round `k` have printed. */
  ghost function Printed<T>(s: seq<T>, size: nat, k: nat): seq<seq<T>>
    requires 2 <= size <= |s| && k <= size
    decreases size, 0, k
  {
    if k == 0 then [] else Printed(s, size, k - 1) + Outputs(Round(s, size, k - 1), size - 1)
  }

  /** Everything a call prints. */
  ghost function Outputs<T>(s: seq<T>, size: nat): seq<seq<T>>
    requires 1 <= size <= |s|
    decreases size, 1
  {
    if size == 1 then [s] else Printed(s, size, size)
  }

  method SwapTwo<T>(a: array<T>, i: nat, j: nat, n: nat)
    requires i < n <= a.Length && j < n
    modifies a
    ensures a[..n] == Swap(old(a[..n]), i, j) && a[n..] == old(a[n..])
  {
    a[i], a[j] := a[j], a[i];
  }

  /** heapPermutation(a, size, n), with the lines it prints as its result. */
  method HeapPermutation<T>(a: array<T>, size: nat, n: nat) returns (out: seq<seq<T>>)
    requires size <= n <= a.Length
    modifies a
    ensures a[..n] == Final(old(a[..n]), size) && a[n..] == old(a[n..])
    ensures size == 0 ==> out == []
    ensures size >= 1 ==> out == Outputs(old(a[..n]), size)
    decreases size, 1
  {
    if size == 1 {
      out := [a[..n]];
    } else if size == 0 {
      out := [];   // no round
    } else {
      out := Rounds(a, size, n);
    }
  }

  /** The loop. */
  method Rounds<T>(a: array<T>, size: nat, n: nat) returns (out: seq<seq<T>>)
    requires 2 <= size <= n <= a.Length
    modifies a
    ensures a[..n] == Final(old(a[..n]), size) && a[n..] == old(a[n..])
    ensures out == Printed(old(a[..n]), size, size)
    decreases size, 0
  {
    hide Round, Swap, Final, Outputs, Printed;
    ghost var s := a[..n];
    RoundEnds(s, size);
    NothingYet(s, size);
    out := [];
    for i := 0 to size
      invariant a[..n] == Round(s, size, i) && a[n..] == old(a[n..])
      invariant out == Printed(s, size, i)
    {
      var more := OneRound(a, size, i, n, s);
      PrintedStep(s, size, i);
      out := out + more;
    }
  }

  /** The loop's body: a recursive call and a swap. */
  method OneRound<T>(a: array<T>, size: nat, i: nat, n: nat, ghost s: seq<T>) returns (out: seq<seq<T>>)
    requires 2 <= size <= n <= a.Length && i < size && |s| == n && a[..n] == Round(s, size, i)
    modifies a
    ensures a[..n] == Round(s, size, i + 1) && a[n..] == old(a[n..])
    ensures out == Outputs(Round(s, size, i), size - 1)
    decreases size - 1, 2
  {
    hide Round, Swap, Final, Outputs;
    out := HeapPermutation(a, size - 1, n);
    if size % 2 == 1 {
      SwapTwo(a, 0, size - 1, n);
    } else {
      SwapTwo(a, i, size - 1, n);
    }
    RoundStep(s, size, i);
  }

  lemma NothingYet<T>(s: seq<T>, size: nat)
    requires 2 <= size <= |s|
    ensures Printed(s, size, 0) == []
  {
  }

  lemma PrintedStep<T>(s: seq<T>, size: nat, k: nat)
    requires 2 <= size <= |s| && k < size
    ensures Printed(s, size, k + 1) == Printed(s, size, k) + Outputs(Round(s, size, k), size - 1)
  {
  }

  // ----- every permutation exactly once

  /** `b` is `s` with its first `size` elements in some order. */
  ghost predicate Arrangement<T>(b: seq<T>, s: seq<T>, size: nat)
    requires size <= |s|
  {
    |b| == |s| && b[size..] == s[size..] && multiset(b[..size]) == multiset(s[..size])
  }

  function Factorial(n: nat): nat {
    if n == 0 then 1 else n * Factorial(n - 1)
  }

  /** The element that round `k` keeps in the last place. */
  function Last<T>(s: seq<T>, size: nat, k: nat): T
    requires 1 <= size <= |s| && k < size
  {
    if size % 2 == 1 then s[size - 1 - k] else if k == 0 then s[size - 1] else s[k - 1]
  }

  lemma RoundLast<T>(s: seq<T>, size: nat, k: nat)
    requires 2 <= size <= |s| && k < size
    ensures Round(s, size, k)[size - 1] == Last(s, size, k) && Round(s, size, k)[size..] == s[size..]
  {
  }

  /** Each element of the prefix is kept last in exactly one round. */
  lemma LastOnce<T>(s: seq<T>, size: nat, x: T) returns (k: nat)
    requires 1 <= size <= |s| && x in s[..size]
    ensures k < size && Last(s, size, k) == x
    ensures NoDup(s[..size]) ==> forall j :: 0 <= j < size && Last(s, size, j) == x ==> j == k
  {
    var i :| 0 <= i < size && s[..size][i] == x;
    k := if size % 2 == 1 then size - 1 - i else if i == size - 1 then 0 else i + 1;
  }

  lemma RotateArranges<T>(s: seq<T>, size: nat, k: nat)
    requires size <= |s| && k <= size
    ensures multiset(RotateRight(s, size, k)[..size]) == multiset(s[..size])
  {
    var u, v := s[..size - k], s[size - k..size];
    assert s[..size] == u + v;
    assert RotateRight(s, size, k)[..size] == v + u;
  }

  lemma ShiftArranges<T>(s: seq<T>, size: nat, k: nat)
    requires 2 <= size <= |s| && 1 <= k < size
    ensures multiset(Shifted(s, size, k)[..size]) == multiset(s[..size])
  {
    var u, v := s[..k - 1], s[k..size - 1];
    assert s[..size] == u + [s[k - 1]] + v + [s[size - 1]];
    assert Shifted(s, size, k)[..size] == [s[size - 1]] + u + v + [s[k - 1]];
  }

  lemma RoundArranges<T>(s: seq<T>, size: nat, k: nat)
    requires 2 <= size <= |s| && k < size
    ensures multiset(Round(s, size, k)[..size]) == multiset(s[..size])
  {
    if size % 2 == 1 {
      RotateArranges(s, size, k);
    } else if k > 0 {
      ShiftArranges(s, size, k);
    }
  }

  lemma RoundNoDup<T>(s: seq<T>, size: nat, k: nat)
    requires 2 <= size <= |s| && k < size && NoDup(s[..size])
    ensures NoDup(Round(s, size, k)[..size - 1])
  {
    hide Round, Source;
    var r := Round(s, size, k)[..size - 1];
    forall i, j | 0 <= i < j < |r| ensures r[i] != r[j] {
      RoundAt(s, size, k, i);
      RoundAt(s, size, k, j);
      SourcesDiffer(size, k, i, j);
      var x, y := Source(size, k, i), Source(size, k, j);
      assert s[..size][x] != s[..size][y];
    }
  }

  /** Where round `k` finds the element of place `j`. */
  function Source(size: nat, k: nat, j: nat): (i: nat)
    requires k < size && j < size
    ensures i < size
  {
    if size % 2 == 1 then (if j >= k then j - k else j + size - k)
    else if k == 0 then j
    else if j == 0 then size - 1
    else if j < k then j - 1
    else if j < size - 1 then j
    else k - 1
  }

  lemma RoundAt<T>(s: seq<T>, size: nat, k: nat, j: nat)
    requires 2 <= size <= |s| && k < size && j < size
    ensures Round(s, size, k)[j] == s[Source(size, k, j)]
  {
  }

  lemma SourcesDiffer(size: nat, k: nat, i: nat, j: nat)
    requires 2 <= size && k < size && i < j < size
    ensures Source(size, k, i) != Source(size, k, j)
  {
  }

  lemma SplitLast<T>(b: seq<T>, size: nat)
    requires 1 <= size <= |b|
    ensures multiset(b[..size]) == multiset(b[..size - 1]) + multiset{b[size - 1]}
    ensures multiset(b[..size - 1]) == multiset(b[..size]) - multiset{b[size - 1]}
  {
    assert b[..size] == b[..size - 1] + [b[size - 1]];
  }

  /** The recursive call in round `k` prints the arrangements with that round's element in the last place. */
  lemma ArrangementsOfRound<T>(b: seq<T>, s: seq<T>, size: nat, k: nat)
    requires 2 <= size <= |s| && k < size
    ensures Arrangement(b, Round(s, size, k), size - 1) <==> Arrangement(b, s, size) && b[size - 1] == Last(s, size, k)
  {
    hide Round, Last;
    var r := Round(s, size, k);
    RoundLast(s, size, k);
    RoundArranges(s, size, k);
    SplitLast(r, size);
    assert r[size - 1..] == [r[size - 1]] + r[size..];
    if |b| == |s| {
      SplitLast(b, size);
      assert b[size - 1..] == [b[size - 1]] + b[size..];
      assert b[size - 1..] == r[size - 1..] <==> b[size - 1] == r[size - 1] && b[size..] == r[size..] by {
        assert b[size - 1..][0] == b[size - 1] && r[size - 1..][0] == r[size - 1];
        assert b[size - 1..][1..] == b[size..] && r[size - 1..][1..] == r[size..];
      }
    }
  }

  /** `out` holds each arrangement whose last element is kept last in one of the first `k` rounds, once. */
  ghost predicate PrintedOK<T(!new)>(out: seq<seq<T>>, s: seq<T>, size: nat, k: nat)
    requires 1 <= size <= |s| && k <= size
  {
    && NoDup(out)
    && forall b :: b in out <==> Arrangement(b, s, size) && exists j :: 0 <= j < k && b[size - 1] == Last(s, size, j)
  }

  lemma {:induction false} PrintedOnce<T(!new)>(s: seq<T>, size: nat, k: nat)
    requires 2 <= size <= |s| && k <= size && NoDup(s[..size])
    ensures PrintedOK(Printed(s, size, k), s, size, k)
    ensures |Printed(s, size, k)| == k * Factorial(size - 1)
    decreases size, 0, k
  {
    hide Round, Printed, Outputs, PrintedOK, Factorial, Arrangement;
    if k == 0 {
      NothingPrinted(s, size);
    } else {
      PrintedOnce(s, size, k - 1);
      RoundNoDup(s, size, k - 1);
      EveryPermutationOnce(Round(s, size, k - 1), size - 1);
      PrintedStep(s, size, k - 1);
      AddRound(s, size, k - 1, Printed(s, size, k - 1), Outputs(Round(s, size, k - 1), size - 1));
      assert k * Factorial(size - 1) == (k - 1) * Factorial(size - 1) + Factorial(size - 1);
    }
  }

  lemma NothingPrinted<T(!new)>(s: seq<T>, size: nat)
    requires 2 <= size <= |s|
    ensures PrintedOK(Printed(s, size, 0), s, size, 0) && Printed(s, size, 0) == []
  {
  }

  lemma AddRound<T(!new)>(s: seq<T>, size: nat, k: nat, out: seq<seq<T>>, more: seq<seq<T>>)
    requires 2 <= size <= |s| && k < size && NoDup(s[..size]) && PrintedOK(out, s, size, k)
    requires NoDup(more) && forall b :: b in more <==> Arrangement(b, Round(s, size, k), size - 1)
    ensures PrintedOK(out + more, s, size, k + 1)
  {
    hide Round, Last;
    forall b ensures b in more <==> Arrangement(b, s, size) && b[size - 1] == Last(s, size, k) {
      ArrangementsOfRound(b, s, size, k);
    }
    forall b | b in more ensures b !in out {
      if b in out {
        var j :| 0 <= j < k && b[size - 1] == Last(s, size, j);
        LastsDiffer(s, size, j, k);
        assert false;
      }
    }
    NoDupConcat(out, more);
  }

  lemma LastsDiffer<T>(s: seq<T>, size: nat, j: nat, k: nat)
    requires 1 <= size <= |s| && j < k < size && NoDup(s[..size])
    ensures Last(s, size, j) != Last(s, size, k)
  {
    assert forall i, j :: 0 <= i < j < size ==> s[..size][i] != s[..size][j];
  }

  /** A call prints every arrangement of its prefix exactly once, size! of them. */
  lemma {:induction false} EveryPermutationOnce<T(!new)>(s: seq<T>, size: nat)
    requires 1 <= size <= |s| && NoDup(s[..size])
    ensures NoDup(Outputs(s, size)) && |Outputs(s, size)| == Factorial(size)
    ensures forall b :: b in Outputs(s, size) <==> Arrangement(b, s, size)
    decreases size, 1
  {
    if size == 1 {
      forall b ensures b in [s] <==> Arrangement(b, s, 1) {
        OnlyArrangement(b, s);
      }
    } else {
      PrintedOnce(s, size, size);
      forall b | Arrangement(b, s, size) ensures b in Printed(s, size, size) {
        var x := b[size - 1];
        assert x in multiset(b[..size]) by { assert b[..size][size - 1] == x; }
        assert x in multiset(s[..size]);
        var k := LastOnce(s, size, x);
      }
    }
  }

  lemma OnlyArrangement<T>(b: seq<T>, s: seq<T>)
    requires 1 <= |s|
    ensures Arrangement(b, s, 1) <==> b == s
  {
    if Arrangement(b, s, 1) {
      assert b[..1] == [b[0]] && s[..1] == [s[0]];
      assert b[0] in multiset(b[..1]);
      assert b == [b[0]] + b[1..] && s == [s[0]] + s[1..];
    }
  }

  // ----- equal elements: the algorithm permutes places

  ghost predicate Places(p: seq<nat>, n: nat) {
    forall i :: 0 <= i < |p| ==> p[i] < n
  }

  /** The elements of `s` at the places `p`. */
  ghost function Pick<T>(s: seq<T>, p: seq<nat>): (r: seq<T>)
    requires Places(p, |s|)
    ensures |r| == |p|
  {
    seq(|p|, i requires 0 <= i < |p| => s[p[i]])
  }

  /** `out` prints the elements of `s` at the places that `places` prints. */
  ghost predicate SamePlaces<T>(s: seq<T>, out: seq<seq<T>>, places: seq<seq<nat>>) {
    |out| == |places| && forall i :: 0 <= i < |out| ==> Places(places[i], |s|) && out[i] == Pick(s, places[i])
  }

  lemma RoundPicks<T>(s: seq<T>, p: seq<nat>, size: nat, k: nat)
    requires Places(p, |s|) && 2 <= size <= |p| && k < size
    ensures Places(Round(p, size, k), |s|) && Round(Pick(s, p), size, k) == Pick(s, Round(p, size, k))
  {
    hide Round, Source;
    var q, r := Round(p, size, k), Round(Pick(s, p), size, k);
    RoundLast(p, size, k);
    RoundLast(Pick(s, p), size, k);
    forall j | 0 <= j < |p| ensures q[j] < |s| && r[j] == s[q[j]] {
      if j < size {
        RoundAt(p, size, k, j);
        RoundAt(Pick(s, p), size, k, j);
      } else {
        assert q[j] == q[size..][j - size] && r[j] == r[size..][j - size];
      }
    }
  }

  lemma {:induction false} PrintedPicks<T>(s: seq<T>, p: seq<nat>, size: nat, k: nat)
    requires Places(p, |s|) && 2 <= size <= |p| && k <= size
    ensures SamePlaces(s, Printed(Pick(s, p), size, k), Printed(p, size, k))
    decreases size, 0, k
  {
    hide Round, Outputs, Pick;
    if k > 0 {
      PrintedPicks(s, p, size, k - 1);
      RoundPicks(s, p, size, k - 1);
      OutputsPick(s, Round(p, size, k - 1), size - 1);
      PrintedStep(p, size, k - 1);
      PrintedStep(Pick(s, p), size, k - 1);
    }
  }

  lemma {:induction false} OutputsPick<T>(s: seq<T>, p: seq<nat>, size: nat)
    requires Places(p, |s|) && 1 <= size <= |p|
    ensures SamePlaces(s, Outputs(Pick(s, p), size), Outputs(p, size))
    decreases size, 1
  {
    if size > 1 {
      PrintedPicks(s, p, size, size);
    }
  }

  ghost function AllPlaces(n: nat): (p: seq<nat>)
    ensures |p| == n && forall i :: 0 <= i < n ==> p[i] == i
  {
    seq(n, i requires 0 <= i < n => i)
  }

  /**
   Whatever the elements are, what is printed are the elements at the places of each permutation
   of the first `size` places, every permutation once.
   */
  lemma EveryOrderOfPlacesOnce<T>(s: seq<T>, size: nat) returns (places: seq<seq<nat>>)
    requires 1 <= size <= |s|
    ensures NoDup(places) && |places| == Factorial(size)
    ensures forall p :: p in places <==> Arrangement(p, AllPlaces(|s|), size)
    ensures SamePlaces(s, Outputs(s, size), places)
  {
    var ids := AllPlaces(|s|);
    assert NoDup(ids[..size]);
    EveryPermutationOnce(ids, size);
    OutputsPick(s, ids, size);
    assert Pick(s, ids) == s;
    places := Outputs(ids, size);
  }
}
