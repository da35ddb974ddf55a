/** The index arithmetic of the lightbox: finding an item's place in the visible set
    and stepping cyclically through it. */
module Navigation {
  import opened Filter

  /** The first position of `x` in `s`, or -1 when `x` does not occur (an array's
      `indexOf`). */
  function IndexOf(s: seq<nat>, x: nat): (r: int)
    ensures -1 <= r < |s|
    ensures r == -1 <==> x !in s
    ensures 0 <= r ==> s[r] == x && forall j :: 0 <= j < r ==> s[j] != x
  {
    if s == [] then -1
    else if s[0] == x then 0
    else
      var t := IndexOf(s[1..], x);
      if t == -1 then -1 else t + 1
  }

  /** In a visible set, which has no repetitions, an item's position is its only one. */
  lemma IndexOfVisible(s: seq<nat>, j: nat)
    requires StrictlyIncreasing(s)
    requires j < |s|
    ensures IndexOf(s, s[j]) == j
  {
  }

  /** JavaScript's integer division, which truncates toward zero. */
  function JsQuotient(a: int, b: int): int
    requires b > 0
  {
    if a >= 0 then a / b else -((-a) / b)
  }

  /** JavaScript's `%` on integers: the remainder of truncating division, so it
      carries the sign of the dividend. */
  function JsRemainder(a: int, b: int): (r: int)
    requires b > 0
    ensures a == JsQuotient(a, b) * b + r
    ensures 0 <= a ==> 0 <= r < b
    ensures a <= 0 ==> -b < r <= 0
  {
    if a >= 0 then a % b
    else
      var m := -a;
      assert m == (m / b) * b + m % b;
      -(m % b)
  }

  /** The index after `nextImage` in a visible set of `n` items. */
  function NextIndex(i: int, n: nat): (r: int)
    requires n > 0
    ensures 0 <= i < n ==> 0 <= r < n
    ensures -1 <= i < n - 1 ==> r == i + 1
    ensures i == n - 1 ==> r == 0
  {
    JsRemainder(i + 1, n)
  }

  /** The index after `previousImage` in a visible set of `n` items; from a valid
      index it undoes `nextImage`. */
  function PrevIndex(i: int, n: nat): (r: int)
    requires n > 0
    ensures 0 <= i < n ==> 0 <= r < n && NextIndex(r, n) == i
  {
    if i == 0 then n - 1 else i - 1
  }

  /** `nextImage` followed by `previousImage` returns to the starting image. */
  lemma NextThenPrev(i: int, n: nat)
    requires 0 <= i < n
    ensures PrevIndex(NextIndex(i, n), n) == i
  {
  }

  /** The index after `k` consecutive `nextImage` steps. */
  function Advance(i: int, n: nat, k: nat): int
    requires n > 0
  {
    if k == 0 then i else NextIndex(Advance(i, n, k - 1), n)
  }

  lemma {:induction false} AdvanceCounts(i: int, n: nat, k: nat)
    requires 0 <= i && i + k < n
    ensures Advance(i, n, k) == i + k
  {
    if k > 0 {
      AdvanceCounts(i, n, k - 1);
    }
  }

  lemma {:induction false} AdvanceAdd(i: int, n: nat, a: nat, b: nat)
    requires n > 0
    ensures Advance(i, n, a + b) == Advance(Advance(i, n, a), n, b)
  {
    if b > 0 {
      AdvanceAdd(i, n, a, b - 1);
    }
  }

  /** `n` consecutive `nextImage` steps through `n` visible items return to the start. */
  lemma FullCycle(i: int, n: nat)
    requires 0 <= i < n
    ensures Advance(i, n, n) == i
  {
    AdvanceCounts(i, n, n - 1 - i);
    AdvanceAdd(i, n, n - 1 - i, i + 1);
    AdvanceAdd(n - 1, n, 1, i);
    AdvanceCounts(0, n, i);
  }
}
