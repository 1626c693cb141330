/** The period selector: the active index into the timeline and the three
    inputs that change it (the next arrow, the previous arrow, a click on a
    dot). The arrows clamp at the ends of the list; they never wrap. */
module Selector {

  /** A user input that may change the active period. */
  datatype Action = NextArrow | PrevArrow | DotClick(i: int)

  /** `Math.min` of two integers. */
  function Min(a: int, b: int): (m: int)
    ensures m <= a && m <= b && (m == a || m == b)
  {
    if a <= b then a else b
  }

  /** `Math.max` of two integers. */
  function Max(a: int, b: int): (m: int)
    ensures m >= a && m >= b && (m == a || m == b)
  {
    if a >= b then a else b
  }

  /** Reference definition of clamping `x` into `[lo, hi]`. */
  function Clamp(x: int, lo: int, hi: int): (r: int)
    requires lo <= hi
    ensures lo <= r <= hi
    ensures lo <= x <= hi ==> r == x
    ensures x < lo ==> r == lo
    ensures x > hi ==> r == hi
  {
    if x < lo then lo else if x > hi then hi else x
  }

  /** The next arrow's update `min(p + 1, n - 1)`: one step forward, held at
      the last period. */
  function Next(p: nat, n: nat): (r: nat)
    requires n >= 1
    ensures r < n
    ensures p < n - 1 ==> r == p + 1
    ensures p >= n - 1 ==> r == n - 1
  {
    Min(p + 1, n - 1)
  }

  /** The previous arrow's update `max(p - 1, 0)`: one step back, held at
      the first period. */
  function Prev(p: nat): (r: nat)
    ensures p > 0 ==> r == p - 1
    ensures p == 0 ==> r == 0
  {
    Max(p - 1, 0)
  }

  /** The previous arrow is disabled on the first period, exactly where
      going back would not move. */
  function PrevDisabled(p: nat): (r: bool)
    ensures r <==> Prev(p) == p
  {
    p == 0
  }

  /** The next arrow is disabled on the last period, exactly where
      advancing would not move. */
  function NextDisabled(p: nat, n: nat): (r: bool)
    ensures n >= 1 && p < n ==> (r <==> Next(p, n) == p)
  {
    p == n - 1
  }

  /** A dot click carries the index of a dot, and there is one dot per
      period, so it is always a valid index. */
  predicate ValidAction(a: Action, n: nat)
  {
    a.DotClick? ==> 0 <= a.i < n
  }

  /** What a handler does to the active index, without the button's
      `disabled` guard. */
  function Apply(a: Action, p: nat, n: nat): (r: nat)
    requires n >= 1 && p < n && ValidAction(a, n)
    ensures r < n
    ensures a.NextArrow? ==> r == Next(p, n)
    ensures a.PrevArrow? ==> r == Prev(p)
    ensures a.DotClick? ==> r == a.i
  {
    match a
    case NextArrow => Next(p, n)
    case PrevArrow => Prev(p)
    case DotClick(i) => i
  }

  /** One user input as the page delivers it: a disabled arrow button fires
      no click, so the index is left alone; otherwise the handler runs. */
  function Press(a: Action, p: nat, n: nat): (r: nat)
    requires n >= 1 && p < n && ValidAction(a, n)
    ensures r < n
    ensures a.NextArrow? && NextDisabled(p, n) ==> r == p
    ensures a.PrevArrow? && PrevDisabled(p) ==> r == p
    ensures a.NextArrow? ==> r == Next(p, n)
    ensures a.PrevArrow? ==> r == Prev(p)
    ensures a.DotClick? ==> r == a.i
  {
    match a
    case NextArrow => if NextDisabled(p, n) then p else Next(p, n)
    case PrevArrow => if PrevDisabled(p) then p else Prev(p)
    case DotClick(i) => i
  }

  predicate AllValid(acts: seq<Action>, n: nat)
  {
    forall k :: 0 <= k < |acts| ==> ValidAction(acts[k], n)
  }

  /** The active index after a sequence of inputs starting from `p`. */
  function Reach(acts: seq<Action>, p: nat, n: nat): (r: nat)
    requires n >= 1 && p < n && AllValid(acts, n)
    ensures r < n
    decreases |acts|
  {
    if acts == [] then p else Reach(acts[1..], Press(acts[0], p, n), n)
  }

  /** `k` presses of the same input. */
  function Repeat(a: Action, k: nat): (r: seq<Action>)
    ensures |r| == k
    ensures forall j :: 0 <= j < k ==> r[j] == a
  {
    if k == 0 then [] else [a] + Repeat(a, k - 1)
  }

  /** Advancing is `clamp(p + 1, 0, n - 1)`, the clamped step. */
  lemma NextIsClampedStep(p: nat, n: nat)
    requires n >= 1 && p < n
    ensures Next(p, n) == Clamp(p + 1, 0, n - 1)
  {
  }

  /** Going back is `clamp(p - 1, 0, n - 1)`, the clamped step. */
  lemma PrevIsClampedStep(p: nat, n: nat)
    requires n >= 1 && p < n
    ensures Prev(p) == Clamp(p - 1, 0, n - 1)
  {
  }

  /** Away from the ends, the arrows undo each other. */
  lemma ArrowsUndoEachOther(p: nat, n: nat)
    requires n >= 1 && p < n
    ensures p < n - 1 ==> Prev(Next(p, n)) == p
    ensures p > 0 ==> Next(Prev(p), n) == p
  {
  }

  /** Each arrow is disabled exactly when its handler would leave the index
      unchanged. */
  lemma DisabledIffNoOp(p: nat, n: nat)
    requires n >= 1 && p < n
    ensures PrevDisabled(p) <==> Prev(p) == p
    ensures NextDisabled(p, n) <==> Next(p, n) == p
  {
  }

  /** The `disabled` guard never changes the outcome: a click it swallows
      would have been a no-op anyway. */
  lemma PressAgreesWithHandler(a: Action, p: nat, n: nat)
    requires n >= 1 && p < n && ValidAction(a, n)
    ensures Press(a, p, n) == Apply(a, p, n)
  {
  }

  /** Pressing the next arrow `k` times from `p` lands on
      `min(p + k, n - 1)`: further presses at the last period change
      nothing. */
  lemma {:induction false} RepeatedNext(p: nat, n: nat, k: nat)
    requires n >= 1 && p < n
    ensures AllValid(Repeat(NextArrow, k), n)
    ensures Reach(Repeat(NextArrow, k), p, n) == Min(p + k, n - 1)
    decreases k
  {
    if k > 0 {
      var acts := Repeat(NextArrow, k);
      assert acts[1..] == Repeat(NextArrow, k - 1);
      RepeatedNext(Press(NextArrow, p, n), n, k - 1);
    }
  }

  /** Pressing the previous arrow `k` times from `p` lands on
      `max(p - k, 0)`. */
  lemma {:induction false} RepeatedPrev(p: nat, n: nat, k: nat)
    requires n >= 1 && p < n
    ensures AllValid(Repeat(PrevArrow, k), n)
    ensures Reach(Repeat(PrevArrow, k), p, n) == Max(p - k, 0)
    decreases k
  {
    if k > 0 {
      var acts := Repeat(PrevArrow, k);
      assert acts[1..] == Repeat(PrevArrow, k - 1);
      RepeatedPrev(Press(PrevArrow, p, n), n, k - 1);
    }
  }
}
