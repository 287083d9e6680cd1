/**
 * The banner carousel of the clinic and professional pages: it shows the
 * banner URLs that are not blank, lets the visitor step through them, and
 * advances by itself until the visitor navigates.  The banner list is the
 * component's property, fixed for the life of one instance here.
 */
module ProfileBannerCarousel {
  import opened SlideIndex
  import Seqs
  import Text

  /** `banner && banner.trim() !== ''`. */
  predicate Shown(banner: string)
  {
    banner != "" && !Text.IsBlank(banner)
  }

  /** `filteredBanners`: the shown entries, in order. */
  function FilteredBanners(banners: seq<string>): (r: seq<string>)
    ensures forall b :: b in r <==> b in banners && Shown(b)
    ensures Seqs.IsSubsequence(r, banners)
  {
    Seqs.FilterIsSubsequence(banners, Shown);
    Seqs.Filter(banners, Shown)
  }

  /** A blank entry is never shown: for `"   "` the carousel renders nothing. */
  lemma BlankEntriesHidden(banners: seq<string>)
    requires forall i :: 0 <= i < |banners| ==> Text.IsBlank(banners[i])
    ensures FilteredBanners(banners) == []
  {
    Seqs.FilterNone(banners, Shown);
  }

  /** The component renders nothing when no banner is shown. */
  predicate Renders(banners: seq<string>)
  {
    |FilteredBanners(banners)| > 0
  }

  /** Arrows, dots and autoplay exist only for more than one banner. */
  predicate HasControls(banners: seq<string>)
  {
    |FilteredBanners(banners)| > 1
  }

  class BannerCarousel {
    /** The `banners` property. */
    const banners: seq<string>
    var currentIndex: int
    var isAutoPlaying: bool

    /** The index names one of the shown banners. */
    predicate Valid()
      reads this
    {
      InRange(currentIndex, |FilteredBanners(banners)|)
    }

    constructor (banners: seq<string>)
      ensures this.banners == banners && currentIndex == 0 && isAutoPlaying
      ensures Renders(banners) ==> Valid()
    {
      this.banners := banners;
      currentIndex := 0;
      isAutoPlaying := true;
    }

    /** `goToPrevious` (an arrow, present only with controls): autoplay stops for good. */
    method GoToPrevious()
      requires HasControls(banners)
      modifies this
      ensures currentIndex == Previous(old(currentIndex), |FilteredBanners(banners)|)
      ensures old(Valid()) ==> Valid()
      ensures !isAutoPlaying
    {
      if Valid() {
        StepsStayInRange(currentIndex, |FilteredBanners(banners)|);
      }
      isAutoPlaying := false;
      currentIndex := Previous(currentIndex, |FilteredBanners(banners)|);
    }

    /** `goToNext` (an arrow, present only with controls): autoplay stops for good. */
    method GoToNext()
      requires HasControls(banners)
      modifies this
      ensures currentIndex == Next(old(currentIndex), |FilteredBanners(banners)|)
      ensures old(Valid()) ==> Valid()
      ensures !isAutoPlaying
    {
      if Valid() {
        StepsStayInRange(currentIndex, |FilteredBanners(banners)|);
      }
      isAutoPlaying := false;
      currentIndex := Next(currentIndex, |FilteredBanners(banners)|);
    }

    /** `goToSlide` (a dot, one per shown banner): that index; autoplay stops for good. */
    method GoToSlide(index: int)
      requires HasControls(banners) && InRange(index, |FilteredBanners(banners)|)
      modifies this
      ensures currentIndex == index && !isAutoPlaying
      ensures Valid()
    {
      isAutoPlaying := false;
      currentIndex := index;
    }

    /**
     * The autoplay interval fires.  It is only installed while autoplay is
     * on and more than one banner is shown; otherwise nothing moves.
     */
    method Tick()
      modifies this
      ensures isAutoPlaying == old(isAutoPlaying)
      ensures old(isAutoPlaying) && HasControls(banners) ==> currentIndex == Next(old(currentIndex), |FilteredBanners(banners)|)
      ensures !(old(isAutoPlaying) && HasControls(banners)) ==> currentIndex == old(currentIndex)
      ensures old(Valid()) ==> Valid()
    {
      if isAutoPlaying && HasControls(banners) {
        if Valid() {
          StepsStayInRange(currentIndex, |FilteredBanners(banners)|);
        }
        currentIndex := Next(currentIndex, |FilteredBanners(banners)|);
      }
    }
  }
}
