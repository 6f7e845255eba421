/** The home page carousel: the slide index moved by the arrows, the 5-second timer and the
    dots, over the three slides of the slide list. */
module Hero {

  /** The length of the slide list. */
  const SlideCount: nat := 3

  /** `(i + 1) % n`: the following slide, wrapping from the last to the first. */
  function Next(i: int, n: int): (r: int)
    requires n > 0 && 0 <= i < n
    ensures 0 <= r < n
    ensures r == if i == n - 1 then 0 else i + 1
  {
    (i + 1) % n
  }

  /** `(i - 1 + n) % n`: the preceding slide, wrapping from the first to the last. */
  function Prev(i: int, n: int): (r: int)
    requires n > 0 && 0 <= i < n
    ensures 0 <= r < n
    ensures r == if i == 0 then n - 1 else i - 1
  {
    (i - 1 + n) % n
  }

  /** The arrows undo each other. */
  lemma NextPrevInverse(i: int, n: int)
    requires n > 0 && 0 <= i < n
    ensures Next(Prev(i, n), n) == i
    ensures Prev(Next(i, n), n) == i
  {
  }

  /** k timer ticks (or clicks on the right arrow). */
  function Ticks(k: nat, i: int, n: int): (r: int)
    requires n > 0 && 0 <= i < n
    ensures 0 <= r < n
  {
    if k == 0 then i else Next(Ticks(k - 1, i, n), n)
  }

  /** k ticks advance the index by k modulo the slide count. */
  lemma {:induction false} TicksAdvance(k: nat, i: int, n: int)
    requires n > 0 && 0 <= i < n
    ensures Ticks(k, i, n) == (i + k) % n
  {
    if k > 0 {
      TicksAdvance(k - 1, i, n);
      var j := (i + k - 1) % n;
      assert Next(j, n) == (j + 1) % n;
      ModSuccessor(i + k - 1, n);
    }
  }

  /** Adding one before or after reducing modulo n gives the same index. */
  lemma ModSuccessor(a: int, n: int)
    requires n > 0
    ensures (a % n + 1) % n == (a + 1) % n
  {
    var q, r := a / n, a % n;
    assert a == q * n + r;
    if r + 1 < n {
      ModUnique(a + 1, n, q, r + 1);
      ModUnique(r + 1, n, 0, r + 1);
    } else {
      assert a + 1 == (q + 1) * n + 0;
      ModUnique(a + 1, n, q + 1, 0);
      ModUnique(r + 1, n, 1, 0);
    }
  }

  /** The remainder is the only r in [0, n) with a = q·n + r. */
  lemma ModUnique(a: int, n: int, q: int, r: int)
    requires n > 0 && 0 <= r < n && a == q * n + r
    ensures a % n == r
  {
    var q0, r0 := a / n, a % n;
    assert a == q0 * n + r0;
    var d := q - q0;
    assert d * n == r0 - r by {
      assert q * n - q0 * n == (q - q0) * n;
    }
  }

  /** After a full round of three ticks the carousel is back where it started. */
  lemma FullRoundReturns(i: int)
    requires 0 <= i < SlideCount
    ensures Ticks(SlideCount, i, SlideCount) == i
  {
    TicksAdvance(SlideCount, i, SlideCount);
  }

  /** The opacity of each slide: 1 for the current index, 0 for the others. */
  function Opacities(n: nat, current: int): (o: seq<int>)
    ensures |o| == n
    ensures forall j :: 0 <= j < n ==> o[j] == (if j == current then 1 else 0)
  {
    seq(n, j => if j == current then 1 else 0)
  }

  function Sum(s: seq<int>): int
  {
    if |s| == 0 then 0 else Sum(s[..|s| - 1]) + s[|s| - 1]
  }

  /** Exactly one slide is visible: the opacities add up to one when the index is in range, and
      the visible slide is the current one. */
  lemma {:induction false} ExactlyOneVisible(n: nat, current: int)
    requires 0 <= current < n
    ensures Sum(Opacities(n, current)) == 1
  {
    OpacitySum(n, current);
  }

  lemma {:induction false} OpacitySum(n: nat, current: int)
    ensures Sum(Opacities(n, current)) == if 0 <= current < n then 1 else 0
  {
    if n > 0 {
      assert Opacities(n, current)[..n - 1] == Opacities(n - 1, current);
      OpacitySum(n - 1, current);
    }
  }

  /** The dots: the one at the current index is wide and white. */
  function ActiveDots(n: nat, current: int): (d: seq<bool>)
    ensures |d| == n
    ensures forall j :: 0 <= j < n ==> (d[j] <==> j == current)
  {
    seq(n, j => j == current)
  }

  /** Clicking dot k shows slide k: its dot is the only wide one and its slide the only
      visible one. */
  function SelectDot(k: int, n: nat): (r: int)
    requires 0 <= k < n
    ensures 0 <= r < n
    ensures forall j :: 0 <= j < n ==> (ActiveDots(n, r)[j] <==> j == k)
    ensures forall j :: 0 <= j < n ==> (Opacities(n, r)[j] == 1 <==> j == k)
    ensures Sum(Opacities(n, r)) == 1
  {
    ExactlyOneVisible(n, k);
    k
  }
}
