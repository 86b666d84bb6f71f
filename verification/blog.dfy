/** The blog page: its slide captions and the right-hand drawer. */
module Blog {
  import opened Decimal

  /** The caption of slide k. */
  function SlideLabel(k: nat): string {
    "Slide " + Show(k + 1)
  }

  /** The captions of the slides, in order. */
  lemma SlideLabels()
    ensures SlideLabel(0) == "Slide 1"
    ensures SlideLabel(1) == "Slide 2"
    ensures SlideLabel(2) == "Slide 3"
  {
  }

  /** The drawer starts closed. */
  function InitialDrawer(): bool {
    false
  }

  /** `toggleRight`: the arrow button flips the drawer. */
  function ToggleRight(open: bool): (r: bool)
    ensures r != open
  {
    !open
  }

  /** A click on the overlay or on a menu link closes the drawer. */
  function CloseRight(open: bool): (r: bool)
    ensures !r
  {
    false
  }

  /** A click on the page content closes the drawer when it is open and does nothing otherwise. */
  function ContentClick(open: bool): (r: bool)
    ensures !r
  {
    if open then false else open
  }

  /** Two toggles cancel; every closing click, wherever it lands, leaves the drawer closed. */
  lemma DrawerLaws(open: bool)
    ensures ToggleRight(ToggleRight(open)) == open
    ensures ContentClick(open) == CloseRight(open)
    ensures ContentClick(ToggleRight(InitialDrawer())) == InitialDrawer()
  {
  }
}
