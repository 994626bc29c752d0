/** strcmp as an order on strings. */
module Strings {

  /** The sign of strcmp(a, b). */
  function StrCmp(a: string, b: string): int {
    if a == [] && b == [] then 0
    else if a == [] then -1
    else if b == [] then 1
    else if a[0] < b[0] then -1
    else if a[0] > b[0] then 1
    else StrCmp(a[1..], b[1..])
  }

  predicate LE(a: string, b: string) {
    StrCmp(a, b) < 1
  }

  lemma {:induction false} CmpReverses(a: string, b: string)
    ensures StrCmp(a, b) == -StrCmp(b, a)
    ensures StrCmp(a, b) == 0 <==> a == b
  {
    if a != [] && b != [] && a[0] == b[0] {
      CmpReverses(a[1..], b[1..]);
      assert a == [a[0]] + a[1..] && b == [b[0]] + b[1..];
    }
  }

  lemma {:induction false} LETransitive(a: string, b: string, c: string)
    requires LE(a, b) && LE(b, c)
    ensures LE(a, c)
  {
    if a != [] && b != [] && c != [] && a[0] == b[0] == c[0] {
      LETransitive(a[1..], b[1..], c[1..]);
    }
  }

  /** What decides is the first difference: a smaller character, or the end of one of the two strings. */
  lemma {:induction false} FirstDifference(common: string, a: string, b: string)
    requires a != [] || b != []
    requires a != [] && b != [] ==> a[0] != b[0]
    ensures StrCmp(common + a, common + b) < 0 <==> a == [] || (b != [] && a[0] < b[0])
    ensures StrCmp(common + a, common + b) > 0 <==> b == [] || (a != [] && a[0] > b[0])
  {
    if common == [] {
      assert common + a == a && common + b == b;
    } else {
      assert (common + a)[1..] == common[1..] + a && (common + b)[1..] == common[1..] + b;
      FirstDifference(common[1..], a, b);
    }
  }

  lemma LETotal(a: string, b: string)
    ensures LE(a, b) || LE(b, a)
  {
    CmpReverses(a, b);
  }
}
