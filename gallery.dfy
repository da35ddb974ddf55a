/** The gallery controller: one object that owns the filter state, the visible set,
    the lightbox and the theme, with the page's elements replaced by fields. */
module Gallery {
  import opened Filter
  import opened Navigation
  import opened Theme

  const Escape: string := "Escape"
  const ArrowLeft: string := "ArrowLeft"
  const ArrowRight: string := "ArrowRight"

  /** What the lightbox shows: the image source and alt text, title, description and
      photographer credit. */
  datatype Slide = Slide(src: string, alt: string, title: string, description: string, photographer: string)

  /** What the lightbox shows for an item: all of its metadata, so the slide and the
      category together give the item back. */
  function SlideOf(item: Item): (r: Slide)
    ensures Item(item.category, r.src, r.alt, r.title, r.description, r.photographer) == item
  {
    Slide(item.src, item.alt, item.title, item.description, item.photographer)
  }

  class ImageGallery {
    /** The `.gallery-item` elements, in page order. */
    const items: seq<Item>
    /** The `data-filter` value of each `.filter-btn`, in page order. */
    const buttonFilters: seq<string>
    /** Which filter buttons carry the `active` class. */
    var buttonActive: seq<bool>
    /** Which items are marked `visible` (true) rather than `hidden` (false). */
    var itemShown: seq<bool>

    var currentFilter: string
    /** The visible set, as positions into `items`. */
    var visibleImages: seq<nat>
    var currentImageIndex: int

    /** The lightbox's `active` class. */
    var lightboxActive: bool
    /** The page body's `overflow: hidden`. */
    var bodyScrollHidden: bool
    var slide: Slide
    /** The texts of the `currentImage` and `totalImages` counter spans. */
    var counterCurrent: int
    var counterTotal: int
    /** The lightbox image is at opacity 0 until its load event. */
    var imagePending: bool

    /** The document's `data-theme` attribute. */
    var theme: string
    /** The `gallery-theme` entry of local storage. */
    var storedTheme: Option<string>
    var themeIcon: Icon

    /** The shape of the state, which every operation keeps. */
    ghost predicate Valid()
      reads this
    {
      |buttonActive| == |buttonFilters| &&
      |itemShown| == |items| &&
      StrictlyIncreasing(visibleImages) &&
      (forall j :: 0 <= j < |visibleImages| ==> visibleImages[j] < |items|) &&
      bodyScrollHidden == lightboxActive
    }

    /** The current index designates a visible item. */
    predicate IndexInRange()
      reads this
    {
      0 <= currentImageIndex < |visibleImages| && visibleImages[currentImageIndex] < |items|
    }

    /** The lightbox shows the item at the current index, with its 1-based counter. */
    ghost predicate ShowsCurrent()
      reads this
    {
      IndexInRange() &&
      slide == SlideOf(items[visibleImages[currentImageIndex]]) &&
      counterCurrent == currentImageIndex + 1 &&
      counterTotal == |visibleImages|
    }

    /** While the lightbox is open it shows the item at the current index. This holds
        as long as the visible set is not recomputed while the lightbox is open. */
    ghost predicate Consistent()
      reads this
    {
      Valid() && (lightboxActive ==> ShowsCurrent())
    }

    ghost predicate ThemeApplied()
      reads this
    {
      storedTheme == Some(theme) && themeIcon == IconFor(theme)
    }

    twostate predicate RenderUnchanged()
      reads this
    {
      slide == old(slide) && counterCurrent == old(counterCurrent) &&
      counterTotal == old(counterTotal) && imagePending == old(imagePending)
    }

    /** Construction and `init`: filter "all", index 0, the visible set computed, the
        counter total set and the stored theme applied. The markup's initial lightbox
        content and counter text are modelled as empty and 0. */
    constructor (items: seq<Item>, buttonFilters: seq<string>, buttonActive: seq<bool>, storedTheme: Option<string>)
      requires |buttonActive| == |buttonFilters|
      ensures this.items == items && this.buttonFilters == buttonFilters
      ensures this.buttonActive == buttonActive && itemShown == Marks(items, All)
      ensures currentFilter == All && currentImageIndex == 0
      ensures visibleImages == Matching(items, All) && counterTotal == |items|
      ensures !lightboxActive && !imagePending
      ensures theme == SavedOrDefault(storedTheme) && ThemeApplied()
      ensures Consistent()
    {
      this.items := items;
      this.buttonFilters := buttonFilters;
      this.buttonActive := buttonActive;
      itemShown := Marks(items, All);
      currentImageIndex := 0;
      currentFilter := All;
      visibleImages := [];
      lightboxActive := false;
      bodyScrollHidden := false;
      slide := Slide("", "", "", "", "");
      counterCurrent := 0;
      counterTotal := 0;
      imagePending := false;
      theme := "";
      this.storedTheme := storedTheme;
      themeIcon := Sun;
      new;
      UpdateVisibleImages();
      UpdateImageCounter();
      InitializeTheme();
      MatchingAll(items);
    }

    /** Applies the stored theme, or dark when none is stored. */
    method InitializeTheme()
      modifies this`theme, this`storedTheme, this`themeIcon
      ensures theme == SavedOrDefault(old(storedTheme)) && ThemeApplied()
    {
      var savedTheme := SavedOrDefault(storedTheme);
      SetTheme(savedTheme);
    }

    /** Applies `t`, stores it and shows its glyph. */
    method SetTheme(t: string)
      modifies this`theme, this`storedTheme, this`themeIcon
      ensures theme == t && ThemeApplied()
    {
      theme := t;
      storedTheme := Some(t);
      themeIcon := IconFor(t);
    }

    /** The theme toggle's click handler. */
    method ToggleTheme()
      modifies this`theme, this`storedTheme, this`themeIcon
      ensures theme == Toggled(old(theme)) && ThemeApplied()
      ensures theme == Light <==> old(theme) != Light
      ensures theme == Light || theme == Dark
    {
      SetTheme(Toggled(theme));
    }

    /** A click on filter button `b`: every button loses `active`, `b` gains it, and
        `b`'s filter becomes current and starts its transition. */
    method HandleFilterClick(b: nat)
      requires Valid() && b < |buttonFilters|
      modifies this`buttonActive, this`currentFilter, this`itemShown
      ensures Valid() && (old(Consistent()) ==> Consistent())
      ensures buttonActive == OnlyActive(|buttonFilters|, b)
      ensures currentFilter == buttonFilters[b]
      ensures itemShown == Marks(items, currentFilter)
    {
      var k := 0;
      while k < |buttonActive|
        invariant Valid() && 0 <= k <= |buttonActive|
        invariant forall j :: 0 <= j < k ==> !buttonActive[j]
      {
        buttonActive := buttonActive[k := false];
        k := k + 1;
      }
      buttonActive := buttonActive[b := true];
      assert buttonActive == OnlyActive(|buttonFilters|, b);
      var filter := buttonFilters[b];
      currentFilter := filter;
      FilterImagesWithStagger(filter);
    }

    /** Marks every item `visible` or `hidden` by the filter. The staggered timers are
        collapsed: this is the marking once they have all fired. */
    method FilterImagesWithStagger(filter: string)
      requires Valid()
      modifies this`itemShown
      ensures Valid()
      ensures itemShown == Marks(items, filter)
    {
      var k := 0;
      while k < |items|
        invariant 0 <= k <= |items| == |itemShown|
        invariant forall j :: 0 <= j < k ==> itemShown[j] == ShouldShow(filter, items[j].category)
      {
        var shouldShow := ShouldShow(filter, items[k].category);
        itemShown := itemShown[k := shouldShow];
        k := k + 1;
      }
    }

    /** The deferred step that ends a filter transition: the visible set and the
        counter total are recomputed, and then the items marked visible are exactly the
        visible set. */
    method FilterTransitionDone()
      requires Valid()
      modifies this`visibleImages, this`counterTotal
      ensures Valid()
      ensures visibleImages == Matching(items, currentFilter) && counterTotal == |visibleImages|
      ensures itemShown == Marks(items, currentFilter) ==>
                forall k :: 0 <= k < |items| ==> (itemShown[k] <==> k in visibleImages)
      ensures !lightboxActive ==> Consistent()
    {
      UpdateVisibleImages();
      UpdateImageCounter();
    }

    /** Recomputes the visible set from the current filter. */
    method UpdateVisibleImages()
      requires Valid()
      modifies this`visibleImages
      ensures Valid()
      ensures visibleImages == Matching(items, currentFilter)
    {
      var k := 0;
      var matched: seq<nat> := [];
      while k < |items|
        invariant 0 <= k <= |items|
        invariant matched == Matching(items[..k], currentFilter)
      {
        assert items[..k + 1][..k] == items[..k];
        if ShouldShow(currentFilter, items[k].category) {
          matched := matched + [k];
        }
        k := k + 1;
      }
      assert items[..k] == items;
      visibleImages := matched;
    }

    /** Sets the counter total to the size of the visible set. */
    method UpdateImageCounter()
      requires Valid()
      modifies this`counterTotal
      ensures Valid() && (old(Consistent()) ==> Consistent())
      ensures counterTotal == |visibleImages|
    {
      counterTotal := |visibleImages|;
    }

    /** A click on the item at position `index` of the page. The index is looked up in
        the visible set first; an item that is not visible (or no item at all) leaves
        the index at -1 and the lightbox as it was. */
    method OpenLightbox(index: int)
      requires Valid()
      modifies this`currentImageIndex, this`lightboxActive, this`bodyScrollHidden
      modifies this`slide, this`counterCurrent, this`counterTotal, this`imagePending
      ensures Valid()
      ensures !(0 <= index < |items| && index in visibleImages) ==>
                currentImageIndex == -1 && lightboxActive == old(lightboxActive) &&
                bodyScrollHidden == old(bodyScrollHidden) && RenderUnchanged()
      ensures 0 <= index < |items| && index in visibleImages ==>
                IndexInRange() && visibleImages[currentImageIndex] == index &&
                lightboxActive && bodyScrollHidden && imagePending &&
                slide == SlideOf(items[index]) && Consistent()
      ensures !old(lightboxActive) ==> Consistent()
    {
      currentImageIndex := if 0 <= index < |items| then IndexOf(visibleImages, index) else -1;
      if currentImageIndex == -1 {
        return;
      }
      ShowLightboxImage();
      lightboxActive := true;
      bodyScrollHidden := true;
    }

    /** Closes the lightbox and restores page scroll; the index is kept. */
    method CloseLightbox()
      requires Valid()
      modifies this`lightboxActive, this`bodyScrollHidden
      ensures Consistent()
      ensures !lightboxActive && !bodyScrollHidden
    {
      lightboxActive := false;
      bodyScrollHidden := false;
    }

    /** A click inside the lightbox closes it only when it lands on the backdrop. */
    method LightboxClick(onBackdrop: bool)
      requires Valid()
      modifies this`lightboxActive, this`bodyScrollHidden
      ensures Valid() && (old(Consistent()) ==> Consistent())
      ensures lightboxActive == (old(lightboxActive) && !onBackdrop)
    {
      if onBackdrop {
        CloseLightbox();
      }
    }

    /** Renders the item at the current index and marks the image pending. Nothing is
        rendered when the visible set is empty, nor when the index is outside it (the
        original throws at the first read of the missing item, before any write). */
    method ShowLightboxImage()
      requires Valid()
      modifies this`slide, this`counterCurrent, this`counterTotal, this`imagePending
      ensures Valid()
      ensures IndexInRange() ==> ShowsCurrent() && imagePending
      ensures !IndexInRange() ==> RenderUnchanged()
    {
      if |visibleImages| == 0 {
        return;
      }
      if !(0 <= currentImageIndex < |visibleImages|) {
        return;
      }
      var currentItem := items[visibleImages[currentImageIndex]];
      slide := SlideOf(currentItem);
      counterCurrent := currentImageIndex + 1;
      counterTotal := |visibleImages|;
      imagePending := true;
    }

    /** The lightbox image's load event restores its opacity. */
    method ImageLoaded()
      modifies this`imagePending
      ensures !imagePending
    {
      imagePending := false;
    }

    /** Steps to the next visible item, wrapping from the last to the first. */
    method NextImage()
      requires Valid()
      modifies this`currentImageIndex, this`slide, this`counterCurrent, this`counterTotal, this`imagePending
      ensures Valid() && (old(Consistent()) ==> Consistent())
      ensures |visibleImages| == 0 ==> currentImageIndex == old(currentImageIndex) && RenderUnchanged()
      ensures |visibleImages| > 0 ==> currentImageIndex == NextIndex(old(currentImageIndex), |visibleImages|)
      ensures IndexInRange() ==> ShowsCurrent() && imagePending
      ensures !IndexInRange() ==> RenderUnchanged()
    {
      if |visibleImages| == 0 {
        return;
      }
      currentImageIndex := JsRemainder(currentImageIndex + 1, |visibleImages|);
      ShowLightboxImage();
    }

    /** Steps to the previous visible item, wrapping from the first to the last. */
    method PreviousImage()
      requires Valid()
      modifies this`currentImageIndex, this`slide, this`counterCurrent, this`counterTotal, this`imagePending
      ensures Valid() && (old(Consistent()) ==> Consistent())
      ensures |visibleImages| == 0 ==> currentImageIndex == old(currentImageIndex) && RenderUnchanged()
      ensures |visibleImages| > 0 ==> currentImageIndex == PrevIndex(old(currentImageIndex), |visibleImages|)
      ensures IndexInRange() ==> ShowsCurrent() && imagePending
      ensures !IndexInRange() ==> RenderUnchanged()
    {
      if |visibleImages| == 0 {
        return;
      }
      currentImageIndex := if currentImageIndex == 0 then |visibleImages| - 1 else currentImageIndex - 1;
      ShowLightboxImage();
    }

    /** The document's keydown handler: only while the lightbox is open, Escape closes
        it and the arrow keys step through the visible set; every other key and every
        key while closed changes nothing. */
    method KeyDown(key: string)
      requires Valid()
      modifies this`currentImageIndex, this`lightboxActive, this`bodyScrollHidden
      modifies this`slide, this`counterCurrent, this`counterTotal, this`imagePending
      ensures Valid() && (old(Consistent()) ==> Consistent())
      ensures !old(lightboxActive) || key !in {Escape, ArrowLeft, ArrowRight} ==>
                currentImageIndex == old(currentImageIndex) && lightboxActive == old(lightboxActive) &&
                bodyScrollHidden == old(bodyScrollHidden) && RenderUnchanged()
      ensures old(lightboxActive) && key == Escape ==>
                !lightboxActive && !bodyScrollHidden &&
                currentImageIndex == old(currentImageIndex) && RenderUnchanged()
      ensures old(lightboxActive) && key == ArrowLeft ==>
                lightboxActive &&
                currentImageIndex == if |visibleImages| == 0 then old(currentImageIndex)
                                     else PrevIndex(old(currentImageIndex), |visibleImages|)
      ensures old(lightboxActive) && key == ArrowRight ==>
                lightboxActive &&
                currentImageIndex == if |visibleImages| == 0 then old(currentImageIndex)
                                     else NextIndex(old(currentImageIndex), |visibleImages|)
      ensures old(lightboxActive) && (key == ArrowLeft || key == ArrowRight) ==>
                (IndexInRange() ==> ShowsCurrent() && imagePending) &&
                (!IndexInRange() ==> RenderUnchanged())
    {
      if lightboxActive {
        if key == Escape {
          CloseLightbox();
        } else if key == ArrowLeft {
          PreviousImage();
        } else if key == ArrowRight {
          NextImage();
        }
      }
    }

    /** While the lightbox is open its counter reads `k of n` with 1 <= k <= n. */
    lemma CounterWithinTotal()
      requires Consistent() && lightboxActive
      ensures 1 <= counterCurrent <= counterTotal == |visibleImages|
    {
    }
  }

  /** Three items in two categories, filtered to the first category. */
  method WalkthroughFilter() returns (g: ImageGallery)
    ensures fresh(g) && g.Consistent() && !g.lightboxActive
    ensures |g.items| == 3 && g.items[2].src == "c.jpg"
    ensures g.visibleImages == [0, 2]
  {
    var a := Item("x", "a.jpg", "A", "A", "", "");
    var b := Item("y", "b.jpg", "B", "B", "", "");
    var c := Item("x", "c.jpg", "C", "C", "", "");
    g := new ImageGallery([a, b, c], [All, "x", "y"], [true, false, false], None);
    assert g.theme == Dark && g.themeIcon == Sun;

    g.HandleFilterClick(1);
    g.FilterTransitionDone();
    assert g.visibleImages == [0, 2] by {
      MatchingComplete([a, b, c], "x", 0);
      MatchingComplete([a, b, c], "x", 1);
      MatchingComplete([a, b, c], "x", 2);
    }
  }

  /** The filtered gallery opened on a hidden and a visible item, stepped past its end
      and closed. */
  method Walkthrough()
  {
    var g := WalkthroughFilter();

    g.OpenLightbox(1);
    assert g.currentImageIndex == -1 && !g.lightboxActive;

    g.OpenLightbox(0);
    assert g.lightboxActive && g.currentImageIndex == 0;
    assert g.counterCurrent == 1 && g.counterTotal == 2;

    g.KeyDown(ArrowRight);
    assert g.currentImageIndex == 1 && g.counterCurrent == 2 && g.imagePending;
    assert g.slide.src == "c.jpg";
    g.ImageLoaded();
    assert !g.imagePending;
    g.KeyDown(ArrowRight);
    assert g.currentImageIndex == 0;

    g.KeyDown(Escape);
    assert !g.lightboxActive && g.currentImageIndex == 0;

    g.SetTheme(Light);
    assert g.storedTheme == Some(Light) && g.themeIcon == Moon;
  }
}
