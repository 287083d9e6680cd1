/**
 * The home page banner slider: five fixed slides, an index that autoplay
 * advances, and arrows and dots that move it by hand.  Every manual move
 * pauses autoplay and schedules its resumption; here the timers are events
 * the page delivers (`Tick` for the interval, `ResumeFires` for a pending
 * timeout) and only the state they change is modelled.
 */
module HomeBannerSlider {
  import opened SlideIndex

  /** The number of slides in the fixed banner list. */
  const SlideCount := 5

  class BannerSlider {
    var currentSlide: int
    var isAutoPlaying: bool
    /** Resume timeouts scheduled and not yet fired. */
    var pendingResumes: nat

    /** The index names one of the slides. */
    predicate Valid()
      reads this
    {
      InRange(currentSlide, SlideCount)
    }

    constructor ()
      ensures currentSlide == 0 && isAutoPlaying && pendingResumes == 0
      ensures Valid()
    {
      currentSlide := 0;
      isAutoPlaying := true;
      pendingResumes := 0;
    }

    /** `goToSlide`: the index exactly as given (the dots give 0 to 4); autoplay pauses. */
    method GoToSlide(index: int)
      modifies this
      ensures currentSlide == index && !isAutoPlaying && pendingResumes == old(pendingResumes) + 1
      ensures InRange(index, SlideCount) ==> Valid()
    {
      currentSlide := index;
      isAutoPlaying := false;
      pendingResumes := pendingResumes + 1;
    }

    /** `goToPrevious`: one place back, from the first slide to the last; autoplay pauses. */
    method GoToPrevious()
      modifies this
      ensures currentSlide == Previous(old(currentSlide), SlideCount)
      ensures old(Valid()) ==> Valid() && currentSlide == (if old(currentSlide) == 0 then SlideCount - 1 else old(currentSlide) - 1)
      ensures !isAutoPlaying && pendingResumes == old(pendingResumes) + 1
    {
      if Valid() {
        StepsStayInRange(currentSlide, SlideCount);
      }
      currentSlide := Previous(currentSlide, SlideCount);
      isAutoPlaying := false;
      pendingResumes := pendingResumes + 1;
    }

    /** `goToNext`: one place on, from the last slide to the first; autoplay pauses. */
    method GoToNext()
      modifies this
      ensures currentSlide == Next(old(currentSlide), SlideCount)
      ensures old(Valid()) ==> Valid() && currentSlide == (if old(currentSlide) == SlideCount - 1 then 0 else old(currentSlide) + 1)
      ensures !isAutoPlaying && pendingResumes == old(pendingResumes) + 1
    {
      if Valid() {
        StepsStayInRange(currentSlide, SlideCount);
      }
      currentSlide := Next(currentSlide, SlideCount);
      isAutoPlaying := false;
      pendingResumes := pendingResumes + 1;
    }

    /** The autoplay interval fires; it only exists while autoplay is on. */
    method Tick()
      requires isAutoPlaying
      modifies this
      ensures currentSlide == Next(old(currentSlide), SlideCount)
      ensures old(Valid()) ==> Valid()
      ensures isAutoPlaying && pendingResumes == old(pendingResumes)
    {
      if Valid() {
        StepsStayInRange(currentSlide, SlideCount);
      }
      currentSlide := Next(currentSlide, SlideCount);
    }

    /** A scheduled resume fires: autoplay is back on, whatever happened since. */
    method ResumeFires()
      requires pendingResumes > 0
      modifies this
      ensures isAutoPlaying && currentSlide == old(currentSlide) && pendingResumes == old(pendingResumes) - 1
    {
      isAutoPlaying := true;
      pendingResumes := pendingResumes - 1;
    }
  }

  /** Going back after going on (or on after back) returns to the same slide. */
  lemma NextThenPrevious(i: int)
    requires InRange(i, SlideCount)
    ensures Previous(Next(i, SlideCount), SlideCount) == i
    ensures Next(Previous(i, SlideCount), SlideCount) == i
  {
    PreviousUndoesNext(i, SlideCount);
  }

  /** Five steps on, by hand or by autoplay, return to the starting slide. */
  lemma FiveNextsReturn(i: int)
    requires InRange(i, SlideCount)
    ensures Advance(i, SlideCount, SlideCount) == i
  {
    FullTurn(i, SlideCount);
  }
}
