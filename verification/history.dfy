/** The history page: two carousels whose slides are labelled by year, newest first. */
module History {
  import opened Decimal
  import Carousel

  /** The caption of slide k: the word History and the year 2024 minus k. */
  function SlideLabel(k: nat): string
    requires k < Carousel.TotalSlides
  {
    "History " + Show(2024 - k)
  }

  /** The captions read 2024, 2023, 2022 in slide order. */
  lemma SlideLabels()
    ensures SlideLabel(0) == "History 2024"
    ensures SlideLabel(1) == "History 2023"
    ensures SlideLabel(2) == "History 2022"
  {
  }

  /** Different slides carry different captions. */
  lemma DistinctCaptions(j: nat, k: nat)
    requires j < Carousel.TotalSlides && k < Carousel.TotalSlides && j != k
    ensures SlideLabel(j) != SlideLabel(k)
  {
    assert SlideLabel(j)[8..] == Show(2024 - j);
    assert SlideLabel(k)[8..] == Show(2024 - k);
    ShowInjective(2024 - j, 2024 - k);
  }
}
