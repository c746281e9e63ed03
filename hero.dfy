/** The hero carousel: a slide index that the arrow buttons step modulo the
    number of slides and that the indicator buttons set directly. */
module Hero {

  /** The slides, in display order. */
  const Images: seq<string> := ["/images/heroimage1.webp", "/images/heroimage2.webp"]

  /** The indices the indicator buttons pass to `goToImage`, one button each. */
  const Indicators: seq<int> := [0, 1]

  /** JavaScript's `%` on numbers: truncating division, so the remainder
      carries the sign of the dividend. */
  function JsRem(a: int, n: int): (r: int)
    requires n > 0
    ensures a >= 0 ==> 0 <= r < n && r == a % n
    ensures a < 0 ==> -n < r <= 0
  {
    if a >= 0 then a % n else -((-a) % n)
  }

  /** `(prev + 1) % images.length`. */
  function NextIndex(i: int, n: int): (r: int)
    requires n > 0
    ensures i >= -1 ==> 0 <= r < n
    ensures 0 <= i < n ==> r == if i == n - 1 then 0 else i + 1
  {
    JsRem(i + 1, n)
  }

  /** `(prev - 1 + images.length) % images.length`. */
  function PrevIndex(i: int, n: int): (r: int)
    requires n > 0
    ensures i >= 1 - n ==> 0 <= r < n
    ensures 0 <= i < n ==> r == if i == 0 then n - 1 else i - 1
  {
    JsRem(i - 1 + n, n)
  }

  /** Stepping back undoes stepping forward, and the other way round. */
  lemma PrevUndoesNext(i: int, n: int)
    requires n > 0 && 0 <= i < n
    ensures PrevIndex(NextIndex(i, n), n) == i
    ensures NextIndex(PrevIndex(i, n), n) == i
  {
  }

  /** The index after `k` presses of the next arrow. */
  function NextTimes(i: int, n: int, k: nat): int
    requires n > 0
  {
    if k == 0 then i else NextIndex(NextTimes(i, n, k - 1), n)
  }

  /** From a valid index, `k` presses of the next arrow advance by `k` modulo `n`. */
  lemma {:induction false} NextTimesIsModular(i: int, n: int, k: nat)
    requires n > 0 && 0 <= i < n
    ensures NextTimes(i, n, k) == (i + k) % n
  {
    if k > 0 {
      NextTimesIsModular(i, n, k - 1);
      ModSucc(i + k - 1, n);
    }
  }

  /** Stepping a residue modulo `n` by one wraps from `n - 1` to 0. */
  lemma {:induction false} ModSucc(a: nat, n: int)
    requires n > 0
    ensures (if a % n == n - 1 then 0 else a % n + 1) == (a + 1) % n
  {
    var q, r := a / n, a % n;
    if r == n - 1 {
      ModUnique(a + 1, n, q + 1, 0);
    } else {
      ModUnique(a + 1, n, q, r + 1);
    }
  }

  /** Division by a positive `n` has a unique quotient and remainder. */
  lemma {:induction false} ModUnique(x: int, n: int, q: int, r: int)
    requires n > 0 && 0 <= r < n && x == q * n + r
    ensures x % n == r
  {
    var q', r' := x / n, x % n;
    assert (q - q') * n == r' - r;
    if q - q' >= 1 {
      MulAtLeast(q - q', n);
    } else if q' - q >= 1 {
      MulAtLeast(q' - q, n);
    }
  }

  lemma MulAtLeast(d: int, n: int)
    requires d >= 1 && n > 0
    ensures d * n >= n
  {
    assert d * n == (d - 1) * n + n;
  }

  /** Pressing the next arrow once per slide returns to the starting slide. */
  lemma {:induction false} NextFullCycle(i: int, n: int)
    requires n > 0 && 0 <= i < n
    ensures NextTimes(i, n, n) == i
    ensures forall k :: 0 < k < n ==> NextTimes(i, n, k) != i
  {
    NextTimesIsModular(i, n, n);
    ModUnique(i + n, n, 1, i);
    forall k | 0 < k < n ensures NextTimes(i, n, k) != i {
      NextTimesIsModular(i, n, k);
      if i + k < n {
        ModUnique(i + k, n, 0, i + k);
      } else {
        ModUnique(i + k, n, 1, i + k - n);
      }
    }
  }

  /** A user action on the carousel. */
  datatype Action = Next | Prev | GoTo(index: int)

  /** The carousel index after one action. */
  function Step(i: int, a: Action): (r: int)
    ensures 0 <= i < |Images| && IsButtonAction(a) ==> 0 <= r < |Images|
    ensures a.GoTo? ==> r == a.index
  {
    match a
    case Next => NextIndex(i, |Images|)
    case Prev => PrevIndex(i, |Images|)
    case GoTo(k) => k
  }

  /** The carousel index after a sequence of actions, applied left to right. */
  function Run(i: int, actions: seq<Action>): int
    decreases |actions|
  {
    if actions == [] then i else Run(Step(i, actions[0]), actions[1..])
  }

  /** An action that one of the carousel's buttons can issue. */
  predicate IsButtonAction(a: Action) {
    a.GoTo? ==> a.index in Indicators
  }

  /** Every index an indicator button passes names an existing slide, and each
      slide has exactly one indicator. */
  lemma IndicatorsMatchSlides()
    ensures |Indicators| == |Images|
    ensures forall j :: 0 <= j < |Indicators| ==> Indicators[j] == j
  {
  }

  /** Starting from the initial index 0, no sequence of button presses leads
      outside the slides. */
  lemma {:induction false} RunStaysInRange(i: int, actions: seq<Action>)
    requires 0 <= i < |Images|
    requires forall j :: 0 <= j < |actions| ==> IsButtonAction(actions[j])
    ensures 0 <= Run(i, actions) < |Images|
    decreases |actions|
  {
    if actions != [] {
      IndicatorsMatchSlides();
      RunStaysInRange(Step(i, actions[0]), actions[1..]);
    }
  }

  /** The horizontal translation of the slide strip, in percent of the viewport:
      `translateX(-${currentImage * 100}%)`. */
  function SlideOffset(current: int): int {
    -(current * 100)
  }

  /** The translated left edge of slide `j`, in percent of the viewport. */
  function SlideLeftEdge(current: int, j: int): int {
    j * 100 + SlideOffset(current)
  }

  /** The strip's offset brings exactly the current slide into the viewport:
      slide `j` starts at the viewport's left edge iff `j` is the current index,
      and slides before it lie to the left, slides after it to the right. */
  lemma OffsetShowsCurrentSlide(current: int, j: int)
    ensures SlideLeftEdge(current, j) == 0 <==> j == current
    ensures j < current ==> SlideLeftEdge(current, j) <= -100
    ensures j > current ==> SlideLeftEdge(current, j) >= 100
  {
  }

  /** Whether indicator `index` is drawn as the active one. */
  predicate IndicatorActive(current: int, index: int) {
    current == index
  }

  /** For a valid index exactly one indicator is active, and it is the one
      whose index equals the current slide. */
  lemma ExactlyOneIndicatorActive(current: int)
    requires 0 <= current < |Images|
    ensures exists j :: 0 <= j < |Indicators| && IndicatorActive(current, Indicators[j])
    ensures forall j, k :: 0 <= j < k < |Indicators| ==>
      !(IndicatorActive(current, Indicators[j]) && IndicatorActive(current, Indicators[k]))
    ensures forall j :: 0 <= j < |Indicators| && IndicatorActive(current, Indicators[j]) ==>
      Indicators[j] == current
  {
    IndicatorsMatchSlides();
    assert IndicatorActive(current, Indicators[current]);
  }

  /** The carousel component with its one piece of state, `currentImage`. */
  class Carousel {
    var currentImage: int

    /** The index names an existing slide. */
    predicate Valid()
      reads this
    {
      0 <= currentImage < |Images|
    }

    constructor ()
      ensures currentImage == 0 && Valid()
    {
      currentImage := 0;
    }

    method NextImage()
      modifies this
      ensures currentImage == Step(old(currentImage), Next)
      ensures old(Valid()) ==> Valid()
    {
      currentImage := NextIndex(currentImage, |Images|);
    }

    method PrevImage()
      modifies this
      ensures currentImage == Step(old(currentImage), Prev)
      ensures old(Valid()) ==> Valid()
    {
      currentImage := PrevIndex(currentImage, |Images|);
    }

    method GoToImage(index: int)
      modifies this
      ensures currentImage == index
      ensures Valid() <==> index in Indicators
    {
      IndicatorsMatchSlides();
      currentImage := index;
    }
  }
}
