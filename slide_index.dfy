/** The index arithmetic of the carousel (main.js:58 and main.js:63), lifted
    out of the methods that perform it so that lemmas can relate the steps. */
module SlideIndex {

  /** JavaScript's `%` on integers: the remainder truncated toward zero, so it
      carries the sign of the dividend (Dafny's own `%` is Euclidean). */
  function JsRem(a: int, b: int): (r: int)
    requires b > 0
    ensures -b < r < b
    ensures a >= 0 ==> 0 <= r && r == a % b
    ensures a < 0 ==> r <= 0
  {
    if a >= 0 then a % b else -((-a) % b)
  }

  /** `goToNext`: `(currentIndex + 1) % slides.length`. */
  function NextIndex(i: int, n: int): (r: int)
    requires n >= 1
    ensures 0 <= i < n ==> r == if i == n - 1 then 0 else i + 1
    ensures -1 <= i ==> 0 <= r < n
  {
    JsRem(i + 1, n)
  }

  /** `goToPrevious`: `(currentIndex - 1 + slides.length) % slides.length`.
      Adding the length first keeps the dividend non-negative for every
      index from `1 - n` upward, so the remainder is never negative there. */
  function PreviousIndex(i: int, n: int): (r: int)
    requires n >= 1
    ensures 0 <= i < n ==> r == if i == 0 then n - 1 else i - 1
    ensures 1 - n <= i ==> 0 <= i - 1 + n && 0 <= r < n
  {
    JsRem(i - 1 + n, n)
  }

  /** `goToPrevious` undoes `goToNext`, and `goToNext` undoes `goToPrevious`. */
  lemma NextPreviousInverse(i: int, n: int)
    requires n >= 1 && 0 <= i < n
    ensures PreviousIndex(NextIndex(i, n), n) == i
    ensures NextIndex(PreviousIndex(i, n), n) == i
  {
  }

  /** The index reached after `k` calls of `goToNext`. */
  function Advance(i: int, n: int, k: nat): int
    requires n >= 1
  {
    if k == 0 then i else NextIndex(Advance(i, n, k - 1), n)
  }

  /** The index reached after `k` calls of `goToPrevious`. */
  function Retreat(i: int, n: int, k: nat): int
    requires n >= 1
  {
    if k == 0 then i else PreviousIndex(Retreat(i, n, k - 1), n)
  }

  /** Within one turn, `k` steps forward move the index `k` places, wrapping
      past the last slide at most once. */
  lemma {:induction false} AdvanceWithinTurn(i: int, n: int, k: nat)
    requires n >= 1 && 0 <= i < n && k <= n
    ensures Advance(i, n, k) == if i + k < n then i + k else i + k - n
  {
    if k > 0 {
      AdvanceWithinTurn(i, n, k - 1);
    }
  }

  /** Cyclic closure: `n` steps forward return to the starting slide. */
  lemma FullTurn(i: int, n: int)
    requires n >= 1 && 0 <= i < n
    ensures Advance(i, n, n) == i
  {
    AdvanceWithinTurn(i, n, n);
  }

  /** Steps forward compose: `a` steps then `b` steps are `a + b` steps. */
  lemma {:induction false} AdvanceCompose(i: int, n: int, a: nat, b: nat)
    requires n >= 1
    ensures Advance(Advance(i, n, a), n, b) == Advance(i, n, a + b)
  {
    if b > 0 {
      AdvanceCompose(i, n, a, b - 1);
    }
  }

  /** Any whole number of turns returns to the starting slide. */
  lemma {:induction false} WholeTurns(i: int, n: int, m: nat)
    requires n >= 1 && 0 <= i < n
    ensures Advance(i, n, m * n) == i
  {
    if m > 0 {
      WholeTurns(i, n, m - 1);
      assert m * n == (m - 1) * n + n;
      AdvanceCompose(i, n, (m - 1) * n, n);
      FullTurn(i, n);
    }
  }

  /** Every step forward stays in range, so `k` steps do too. */
  lemma {:induction false} AdvanceInRange(i: int, n: int, k: nat)
    requires n >= 1 && 0 <= i < n
    ensures 0 <= Advance(i, n, k) < n
  {
    if k > 0 {
      AdvanceInRange(i, n, k - 1);
    }
  }

  /** `k` steps back undo `k` steps forward. */
  lemma {:induction false} RetreatUndoesAdvance(i: int, n: int, k: nat)
    requires n >= 1 && 0 <= i < n
    ensures Retreat(Advance(i, n, k), n, k) == i
  {
    if k > 0 {
      var j := Advance(i, n, k - 1);
      AdvanceInRange(i, n, k - 1);
      NextPreviousInverse(j, n);
      AdvanceCompose(i, n, k - 1, 1);
      RetreatFirstStep(NextIndex(j, n), n, k);
      RetreatUndoesAdvance(i, n, k - 1);
    }
  }

  /** `k` steps back may be taken as one step back followed by `k - 1` more. */
  lemma {:induction false} RetreatFirstStep(i: int, n: int, k: nat)
    requires n >= 1 && k >= 1
    ensures Retreat(i, n, k) == Retreat(PreviousIndex(i, n), n, k - 1)
  {
    if k > 1 {
      RetreatFirstStep(i, n, k - 1);
    }
  }

  /** What can move the slide index: the two direction buttons, the timer
      (which calls `goToNext`) and a click on an indicator (`goToSlide`). */
  datatype Command = Next | Previous | GoTo(index: int)

  function Step(i: int, n: int, c: Command): (r: int)
    requires n >= 1
  {
    match c
    case Next => NextIndex(i, n)
    case Previous => PreviousIndex(i, n)
    case GoTo(k) => k
  }

  /** The index after a sequence of commands, first to last. */
  function Run(i: int, n: int, cs: seq<Command>): int
    requires n >= 1
  {
    if |cs| == 0 then i else Step(Run(i, n, cs[..|cs| - 1]), n, cs[|cs| - 1])
  }

  /** Every `GoTo` comes from an indicator, so names an existing slide. */
  predicate FromIndicators(cs: seq<Command>, n: int) {
    forall j :: 0 <= j < |cs| && cs[j].GoTo? ==> 0 <= cs[j].index < n
  }

  /** The index is always a valid slide: from a valid start, any run of button
      presses, timer ticks and indicator clicks ends on a valid slide, and a
      `goToSlide` with an out-of-range index is the only way to leave the range. */
  lemma {:induction false} RunStaysInRange(i: int, n: int, cs: seq<Command>)
    requires n >= 1 && 0 <= i < n
    ensures FromIndicators(cs, n) ==> 0 <= Run(i, n, cs) < n
  {
    if |cs| > 0 && FromIndicators(cs, n) {
      assert FromIndicators(cs[..|cs| - 1], n);
      RunStaysInRange(i, n, cs[..|cs| - 1]);
    }
  }
}
