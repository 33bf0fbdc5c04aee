/**
 * ReaderScreen.kt: the right-to-left pager. Images are shown two to a page;
 * in single-first-page mode page 0 holds image 0 alone.
 */
module ReaderLayout {

  /** The pager's page count for n images. */
  function PageCount(n: nat, single: bool): (c: nat)
    ensures single ==> c == (n + 2) / 2
    ensures !single ==> c == (n + 1) / 2
    ensures (c > 0) == (single || n > 0)
  {
    if single then (n + 2) / 2 else (n + 1) / 2
  }

  /** `firstImageIndex` of a page. */
  function FirstImageIndex(page: nat, single: bool): nat {
    if single && page > 0 then page * 2 - 1 else page * 2
  }

  /** The image indices a page shows: both halves of its spread that exist, or image 0 alone. */
  function Shown(n: nat, single: bool, page: nat): (r: seq<nat>)
    ensures forall k :: 0 <= k < |r| ==> r[k] < n
    ensures single && page == 0 ==> r == if n > 0 then [0] else []
    ensures !(single && page == 0) ==> forall i :: i in r <==>
      i < n && (i == FirstImageIndex(page, single) || i == FirstImageIndex(page, single) + 1)
  {
    var first := FirstImageIndex(page, single);
    if page == 0 && single then
      if first < n then [first] else []
    else
      (if first < n then [first] else []) + (if first + 1 < n then [first + 1] else [])
  }

  /** The page that shows image i. */
  function PageOf(i: nat, single: bool): nat {
    if single then (i + 1) / 2 else i / 2
  }

  /** Every image is on exactly one page, and that page exists. */
  lemma Partition(n: nat, single: bool, i: nat, page: nat)
    requires i < n
    ensures PageOf(i, single) < PageCount(n, single)
    ensures i in Shown(n, single, page) <==> page == PageOf(i, single)
  {
    var first := FirstImageIndex(page, single);
    if single && page == 0 {
      assert i in Shown(n, single, page) <==> i == 0;
    } else {
      assert i in Shown(n, single, page) <==> i == first || i == first + 1;
    }
  }

  /** Every page in range shows an image, so the pager has no blank page. */
  lemma NoBlankPage(n: nat, single: bool, page: nat)
    requires n > 0 && page < PageCount(n, single)
    ensures |Shown(n, single, page)| > 0
  {
    assert FirstImageIndex(page, single) < n;
  }

  /** The page a rebuilt pager opens on, from the page last shown. */
  function NewCurrentPage(single: bool, lastPage: nat): (p: nat)
    ensures p <= lastPage && lastPage - p <= 1
    ensures p == lastPage <==> single || lastPage == 0
  {
    if single || lastPage == 0 then lastPage else lastPage - 1
  }

  /** After a toggle, a page that was valid in the old mode gives a valid page in the new one. */
  lemma ToggleInRange(n: nat, single: bool, lastPage: nat)
    requires lastPage < PageCount(n, !single) && PageCount(n, single) > 0
    ensures NewCurrentPage(single, lastPage) < PageCount(n, single)
  {
  }

  /** The first image of the page shown before a toggle is on the page shown after it. */
  lemma ToggleKeepsFirstImage(n: nat, single: bool, lastPage: nat)
    requires FirstImageIndex(lastPage, !single) in Shown(n, !single, lastPage)
    ensures FirstImageIndex(lastPage, !single) in Shown(n, single, NewCurrentPage(single, lastPage))
  {
    var i := FirstImageIndex(lastPage, !single);
    assert i < n;
    Partition(n, single, i, NewCurrentPage(single, lastPage));
  }

  /** Toggling twice from single mode at page L > 0 ends at page L - 1, not L. */
  lemma ToggleTwice(lastPage: nat)
    requires lastPage > 0
    ensures NewCurrentPage(true, NewCurrentPage(false, lastPage)) == lastPage - 1
  {
  }

  /**
   * The screen's remembered state: the mode, the last page seen, and the pager
   * built from them for the current image count.
   */
  class ReaderSession {
    var singleFirstPageMode: bool
    var lastPage: nat
    var imageCount: nat
    var currentPage: nat

    /** `lastPage` follows the pager's current page. */
    ghost predicate Valid()
      reads this
    {
      lastPage == currentPage
    }

    constructor ()
      ensures Valid() && singleFirstPageMode && lastPage == 0 && imageCount == 0 && currentPage == 0
    {
      singleFirstPageMode := true;
      lastPage := 0;
      imageCount := 0;
      currentPage := 0;
    }

    /** `remember(images.size, mode)` builds a new pager; the page effect then records its page. */
    method Rebuild()
      modifies this
      ensures currentPage == NewCurrentPage(singleFirstPageMode, old(lastPage)) && lastPage == currentPage
      ensures singleFirstPageMode == old(singleFirstPageMode) && imageCount == old(imageCount)
    {
      currentPage := NewCurrentPage(singleFirstPageMode, lastPage);
      lastPage := currentPage;
    }

    /** A double tap flips the mode and rebuilds the pager. */
    method DoubleTap()
      requires Valid()
      modifies this
      ensures Valid()
      ensures singleFirstPageMode == !old(singleFirstPageMode) && imageCount == old(imageCount)
      ensures currentPage == NewCurrentPage(singleFirstPageMode, old(lastPage))
    {
      singleFirstPageMode := !singleFirstPageMode;
      Rebuild();
    }

    /** New images from the view model; a changed count rebuilds the pager. */
    method SetImageCount(n: nat)
      requires Valid()
      modifies this
      ensures Valid()
      ensures imageCount == n && singleFirstPageMode == old(singleFirstPageMode)
      ensures currentPage == if n == old(imageCount) then old(currentPage) else NewCurrentPage(singleFirstPageMode, old(lastPage))
    {
      if n != imageCount {
        imageCount := n;
        Rebuild();
      }
    }

    /** The user swipes to a page of the pager. */
    method SwipeTo(page: nat)
      requires Valid() && page < PageCount(imageCount, singleFirstPageMode)
      modifies this
      ensures Valid()
      ensures currentPage == page && singleFirstPageMode == old(singleFirstPageMode) && imageCount == old(imageCount)
    {
      currentPage := page;
      lastPage := page;
    }
  }
}
