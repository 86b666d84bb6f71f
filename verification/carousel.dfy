/**
 * The three-slide carousel that the blog and history pages each mount
 * twice: an index that a timer advances cyclically, that a click on an
 * indicator sets directly, and that decides which indicator is active.
 * The timer is an explicit `Tick` event here; its period is not modelled.
 */
module Carousel {

  const TotalSlides: nat := 3

  datatype Event = Tick | ClickIndicator(k: nat)

  /** The index a carousel mounts with. */
  function InitialIndex(): (r: nat)
    ensures r < TotalSlides && Indicators(r)[0]
  {
    0
  }

  /** The timer moves to the next slide, wrapping from the last back to the first. */
  function Advance(i: nat): (r: nat)
    ensures r < TotalSlides
    ensures i < TotalSlides - 1 ==> r == i + 1
    ensures i == TotalSlides - 1 ==> r == 0
  {
    (i + 1) % TotalSlides
  }

  /** `goToSlide(index)`: the index becomes the clicked indicator's; the timer restarts, which leaves no state here. */
  function GoToSlide(index: nat): (r: nat)
    ensures r == index
  {
    index
  }

  /** Indicators are rendered for 0..2 only, so a click names one of them. */
  predicate Clickable(e: Event) {
    e.ClickIndicator? ==> e.k < TotalSlides
  }

  function Step(i: nat, e: Event): nat {
    match e
    case Tick => Advance(i)
    case ClickIndicator(k) => GoToSlide(k)
  }

  function Run(i: nat, events: seq<Event>): nat
    decreases |events|
  {
    if events == [] then i else Run(Step(i, events[0]), events[1..])
  }

  /** The `active` flags of the indicators: indicator k is active iff k is the current index. */
  function Indicators(current: nat): (r: seq<bool>)
    ensures |r| == TotalSlides
    ensures forall k :: 0 <= k < TotalSlides ==> (r[k] <==> k == current)
  {
    seq(TotalSlides, k => k == current)
  }

  /** Starting in range, the index stays in range whatever ticks and indicator clicks happen. */
  lemma {:induction false} RunStaysInRange(i: nat, events: seq<Event>)
    requires i < TotalSlides
    requires forall n :: 0 <= n < |events| ==> Clickable(events[n])
    ensures Run(i, events) < TotalSlides
    decreases |events|
  {
    if events != [] {
      RunStaysInRange(Step(i, events[0]), events[1..]);
    }
  }

  /** A mounted carousel shows an index in range whatever ticks and indicator clicks follow. */
  lemma MountedStaysInRange(events: seq<Event>)
    requires forall n :: 0 <= n < |events| ==> Clickable(events[n])
    ensures Run(InitialIndex(), events) < TotalSlides
  {
    RunStaysInRange(InitialIndex(), events);
  }

  function Ticks(n: nat): (r: seq<Event>)
    ensures |r| == n && forall j :: 0 <= j < n ==> r[j] == Tick
  {
    seq(n, _ => Tick)
  }

  /** n timer ticks move the index n places round the cycle. */
  lemma {:induction false} TicksRotate(i: nat, n: nat)
    requires i < TotalSlides
    ensures Run(i, Ticks(n)) == (i + n) % TotalSlides
    decreases n
  {
    if n > 0 {
      assert Ticks(n)[1..] == Ticks(n - 1);
      TicksRotate(Advance(i), n - 1);
      assert (Advance(i) + (n - 1)) % TotalSlides == (i + n) % TotalSlides;
    }
  }

  /** Three ticks bring every index back to itself. */
  lemma ThreeTicksReturn(i: nat)
    requires i < TotalSlides
    ensures Advance(Advance(Advance(i))) == i
  {
  }

  /** For an index in range exactly one indicator is active. */
  lemma ExactlyOneActive(current: nat)
    requires current < TotalSlides
    ensures var r := Indicators(current);
      && r[current]
      && forall j, k :: 0 <= j < k < TotalSlides ==> !(r[j] && r[k])
  {
  }
}
