# Image gallery controller, modelled in Dafny

This project models the `ImageGallery` controller of a browser image gallery. The model keeps its logic and replaces the page's elements with fields. The gallery shows a grid of items, each with a category. Filter buttons narrow the grid to one category, or show every item with the filter `"all"`. A lightbox shows one item of the visible set at a time, with a counter and previous/next stepping. A light/dark theme is kept in local storage.

Modules:

- `Filter` (filter.dfy): the item record and the show/hide predicate `filter == "all" || category == filter`. `Matching` gives the visible set as strictly increasing positions into the item list. `FilterItems` is a reference definition that keeps items front to back, as an array `filter` call does. `Marks` gives the final `visible`/`hidden` marking of every item. `OnlyActive` and `CountActive` describe the filter buttons' `active` class.
- `Navigation` (navigation.dfy): `indexOf` on the visible set; JavaScript's truncating `%` (`JsRemainder`); the next and previous index; `Advance`, which repeats the next step.
- `Theme` (theme.dfy): the start-up default, the toggle and the glyph.
- `Gallery` (gallery.dfy): the `ImageGallery` class. Its fields are the filter state, the visible set, the lightbox index and flags, what the lightbox renders, the counter, the pending-image flag, the theme attribute, stored value and icon, and the button and item markings. Each handler of the original is a method over these fields.
  - `Valid()` is the shape every method keeps. It requires the visible set to be strictly increasing and in range, and body scroll to be hidden exactly while the lightbox is open.
  - `Consistent()` adds that an open lightbox shows the item at the current index, with counter `index + 1` of `|visible set|`. Every method keeps it, with two exceptions (see Left out). One is recomputing the visible set while the lightbox is open. The other is `OpenLightbox` on an item that is not visible while the lightbox is already open: the index becomes -1 and the lightbox stays open.
  - `Walkthrough` is a client. It filters three items to one category, opens an item that is filtered out and one that is visible, and steps past the end to check the wrap-around.

The index into the visible set is an `int`, not a `nat`. A rejected open sets it to -1. A previous step from -1 then moves it further below zero, and JavaScript's `%` keeps the sign of the dividend. The model keeps those values and the truncating remainder.

## Model

| member | source | states |
|---|---|---|
| Filter.ShouldShow | image-gallery/script.js:134 | the filter "all" shows every category; any other filter shows exactly the items whose category equals it |
| Filter.Matching | image-gallery/script.js:159-165 | the visible set is strictly increasing (page order, no duplicates), no longer than the item list, and holds only in-range positions of items the filter shows |
| Filter.MatchingComplete | image-gallery/script.js:161-164 | a position is in the visible set if and only if the filter shows that item |
| Filter.MatchingAll | image-gallery/script.js:163 | with the filter "all" the visible set is every position in order |
| Filter.MatchingSelectsFiltered | image-gallery/script.js:160-164 | the items at the visible positions are exactly the items an array `filter` keeps, in the same order |
| Filter.Marks | image-gallery/script.js:132-164 | the marking the transition leaves has one entry per item, and the items marked visible are exactly the positions of the visible set for the same filter, because both use the same predicate |
| Filter.OnlyActive | image-gallery/script.js:117-121 | after the buttons are cleared and the clicked one is activated, the clicked button is active, no other is, and the count of active buttons is exactly one |
| Navigation.IndexOf | image-gallery/script.js:170 | the result is -1 exactly when the item is absent; otherwise it is the first position holding it |
| Navigation.IndexOfVisible | image-gallery/script.js:168-170 | in a visible set (no repetitions) the lookup returns the item's one position |
| Navigation.JsRemainder | image-gallery/script.js:211 | `a == q*b + r` with truncating quotient `q`; the remainder is in [0, b) for a >= 0 and in (-b, 0] for a <= 0 |
| Navigation.NextIndex | image-gallery/script.js:208-211 | from an index in [0, n) the result stays in [0, n): it advances by one and wraps from n-1 to 0; from -1 (a rejected open) it goes to 0 |
| Navigation.PrevIndex | image-gallery/script.js:215-218 | from an index in [0, n) the result stays in [0, n), and a next step from it returns to the start, so previous undoes next |
| Navigation.NextThenPrev | image-gallery/script.js:208-220 | for n >= 1, a next step followed by a previous step returns to the starting index |
| Navigation.FullCycle | image-gallery/script.js:211 | n consecutive next steps through n visible items return to the starting index |
| Theme.SavedOrDefault | image-gallery/script.js:28 | the initial theme is the stored value; it is "dark" when nothing is stored or the stored value is the empty string |
| Theme.Toggled | image-gallery/script.js:33-34 | the toggle yields "light" or "dark", and "light" exactly when the current theme is not "light" |
| Theme.IconFor | image-gallery/script.js:43-44 | the icon is the moon exactly when the theme is "light", and the sun otherwise |
| Theme.ToggleTwice | image-gallery/script.js:32-36 | toggling twice is the identity on light and dark; any other applied value becomes dark |
| Gallery.SlideOf | image-gallery/script.js:187-197 | the lightbox shows all of an item's metadata (image source, alt text, title, description, photographer), so the slide and the category together give back the item |
| Gallery.ImageGallery.constructor | image-gallery/script.js:2-24 | starts with filter "all", index 0, every item visible, counter total equal to the item count, the lightbox closed and the stored theme applied |
| Gallery.ImageGallery.InitializeTheme | image-gallery/script.js:26-30 | applies the stored theme, or dark, and stores it back |
| Gallery.ImageGallery.SetTheme | image-gallery/script.js:39-45 | the applied attribute and the stored value both become `t`, and the icon matches `t` |
| Gallery.ImageGallery.ToggleTheme | image-gallery/script.js:32-36 | the new theme is the toggle of the applied one (light exactly when it was not light), and it is stored |
| Gallery.ImageGallery.HandleFilterClick | image-gallery/script.js:117-127 | exactly the clicked button is active; the current filter becomes its `data-filter` value; every item is marked by that filter; the lightbox invariant is kept |
| Gallery.ImageGallery.FilterImagesWithStagger | image-gallery/script.js:129-151 | every item is marked visible exactly when the filter is "all" or equals its category, and hidden otherwise |
| Gallery.ImageGallery.FilterTransitionDone | image-gallery/script.js:153-156 | the visible set is recomputed for the current filter and the counter total is its size; then the items marked visible are exactly the visible set |
| Gallery.ImageGallery.UpdateVisibleImages | image-gallery/script.js:159-165 | the visible set becomes the matching positions for the current filter |
| Gallery.ImageGallery.UpdateImageCounter | image-gallery/script.js:222-224 | the counter total becomes the size of the visible set |
| Gallery.ImageGallery.OpenLightbox | image-gallery/script.js:167-177 | an item that is not visible, or a position outside the list, sets the index to -1 and leaves the lightbox, scroll and rendering as they were; a visible item becomes the current one, the lightbox opens showing it, scroll is hidden and the image is pending |
| Gallery.ImageGallery.CloseLightbox | image-gallery/script.js:179-182 | the lightbox is closed and scroll restored; the index and the visible set are untouched |
| Gallery.ImageGallery.LightboxClick | image-gallery/script.js:91-95 | a click closes the lightbox only when it lands on the backdrop |
| Gallery.ImageGallery.ShowLightboxImage | image-gallery/script.js:184-206 | with the index inside the visible set, the lightbox shows that item's metadata, the counter reads index+1 of the set's size, and the image is pending; otherwise (including an empty set) nothing is rendered |
| Gallery.ImageGallery.ImageLoaded | image-gallery/script.js:203-205 | the image's load event clears the pending state |
| Gallery.ImageGallery.NextImage | image-gallery/script.js:208-213 | does nothing on an empty visible set; otherwise the index becomes the next index (cyclic) and that item is rendered; the lightbox invariant is kept |
| Gallery.ImageGallery.PreviousImage | image-gallery/script.js:215-220 | does nothing on an empty visible set; otherwise the index becomes the previous index (cyclic) and that item is rendered; the lightbox invariant is kept |
| Gallery.ImageGallery.KeyDown | image-gallery/script.js:75-89 | only while the lightbox is open: Escape closes it, ArrowLeft steps back and ArrowRight steps forward, rendering the new item with its image pending (nothing is rendered when the new index is outside the visible set, including an empty set); any other key, or any key while closed, changes nothing |
| Gallery.ImageGallery.CounterWithinTotal | image-gallery/script.js:199-200 | while the lightbox is open the counter reads k of n with 1 <= k <= n, and n is the size of the visible set |

## Left out

- The page's elements, `querySelector` lookups and `classList`/`style` writes are fields of the class. Registering event listeners is not modelled: each handler is a method called directly (image-gallery/script.js:3-10, 47-96).
- Timers. `setTimeout` and the staggered delays (100 ms per item, 600 ms) are not modelled. `FilterImagesWithStagger` gives the marking once every per-item timer has fired. The 600 ms callback is the explicit step `FilterTransitionDone`. The `display: none` of hidden items and the order in which timers fire are not modelled.
- Gallery.ImageGallery.FilterTransitionDone: keeps the lightbox invariant only while the lightbox is closed. When the deferred recomputation runs while the lightbox is open (a filter click quickly followed by an open), the index can fall outside the new visible set. A later previous step can then move to an item that does not exist. The original throws a TypeError there, which the model renders as "nothing rendered" (`ShowLightboxImage`). That race is timing behaviour and is not otherwise modelled.
- Gallery.ImageGallery.OpenLightbox: keeps the lightbox invariant only when the item is visible or the lightbox was closed. Called on a filtered-out item while the lightbox is open, it sets the index to -1 and leaves the lightbox open, as the original does. The page cannot reach that case, because the open lightbox covers the grid that receives the clicks.
- Gallery.ImageGallery.ShowLightboxImage: the exception the original throws for an index outside the visible set is modelled as an early return. The original throws at its first read of the missing item, before any write, so the state is the same.
- The image `onload` callback is the explicit method `ImageLoaded`. The opacity it restores is the boolean `imagePending`.
- Local storage is the field `storedTheme`.
- The lightbox's text and counter, as written in the page markup before the first open, are modelled as empty strings and 0. The filter buttons' initial `active` marking is a constructor argument. Every item starts marked visible.
- A filter click is modelled as landing on the button itself, so the clicked button is an index into the button list. A click on a child element of a button, or a button with no `data-filter` attribute, is not modelled.
- The ripple effect (image-gallery/script.js:98-115) is left out: it is pixel geometry on element measurements plus element insertion.
- Smooth-scroll anchors, the `IntersectionObserver` that pauses animations and the injected stylesheet (image-gallery/script.js:231-279) are left out as browser plumbing.
