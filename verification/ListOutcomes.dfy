/** What the hash of a key and the order of a thread's phases amount to. */
module ListOutcomes {
  import opened Division
  import opened ListMachine

  /** The word that stands for a single list. */
  const COARSE: string := "coarse"

  /** The index is the character sum divided by the number of lists, taken modulo that number; not so for the coarse option's word. */
  lemma KeyHashExact(key: string, nLists: nat, quotient: nat)
    requires nLists > 0 && quotient * nLists <= CharSum(key, |key|) < (quotient + 1) * nLists
    ensures KeyHash(key, nLists) == if key == COARSE then 0 else quotient % nLists
  {
    UniqueQuotient(CharSum(key, |key|), nLists, quotient, CharSum(key, |key|) - quotient * nLists);
  }

  /** A string's sum is the sum of its parts, down to the single characters. */
  lemma {:induction false} CharSumAdds(x: string, y: string)
    ensures CharSum([], 0) == 0 && forall c: char :: CharSum([c], 1) == c as nat
    ensures CharSum(x + y, |x + y|) == CharSum(x, |x|) + CharSum(y, |y|)
  {
    if y == [] {
      assert x + y == x;
    } else {
      var most := y[..|y| - 1];
      CharSumAdds(x, most);
      CharSumPrefix(x + y, x + most, |x + most|);
      CharSumPrefix(y, most, |most|);
    }
  }

  lemma {:induction false} CharSumPrefix(key: string, prefix: string, n: nat)
    requires n <= |prefix| && prefix <= key
    ensures CharSum(key, n) == CharSum(prefix, n)
  {
    if n > 0 {
      CharSumPrefix(key, prefix, n - 1);
    }
  }

  /** All of a thread's insertions come first, then one measurement of each list, then all deletions; a measured length is kept. */
  lemma PhaseOrder(phase: Phase, n: nat, nLists: nat)
    requires nLists > 0
    ensures ToInsert(0, n, nLists) == if n > 0 then Inserting(0) else Measuring(0, 0)
    ensures NextPhase(phase, n, nLists) ==
            match phase
            case Inserting(i) => if i + 1 < n then Inserting(i + 1) else Measuring(0, 0)
            case Measuring(j, len) =>
              if j + 1 < nLists then Measuring(j + 1, len) else if n > 0 then Deleting(0) else Done
            case Deleting(i) => if i + 1 < n then Deleting(i + 1) else Done
            case Done => Done
  {
  }
}
