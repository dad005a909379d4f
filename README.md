# Gallery lightbox and services carousel

A Dafny model of the two client-side state machines of the community
website's public pages:

- **The photo gallery page** (`src/pages/Gallery.jsx`). The page holds the
  fetched categories, the active filter key, the images currently shown and
  the lightbox: the selected image (or none) and its index. An image fetch
  that completes replaces the list wholesale and closes the lightbox.
  Clicking an image opens the lightbox at the first index holding that
  image's id. Next and previous step circularly and do nothing on an empty
  list. The keyboard listener maps ArrowRight, ArrowLeft and Escape to next,
  previous and close, and ignores every key while the lightbox is closed.
  The pure parts are the label functions (`safeTranslate`,
  `displayCategories`), the filter bar and the visibility guard of the modal's
  navigation buttons.
- **The mobile services carousel** (`src/components/ServicesPreview.jsx`).
  `currentIndex` always names one of the `n` domain cards. It is moved by the
  auto-rotate timer, by a click on an indicator and by a horizontal swipe
  longer than 40 pixels. Each card is classified as active, side or hidden
  from its circular distance to the current card (`relDiff`), and gets
  integer style values from that classification.

Files:

- `circular.dfy` (module `Circular`): JavaScript's truncating `%`, and the
  forward and backward index steps `(i + 1) % n` and `(i - 1 + n) % n`. Both
  pages use the same steps: Gallery.jsx lines 62 and 69, ServicesPreview.jsx
  lines 46, 76 and 77. The module proves that the steps wrap, that each undoes
  the other, and that `n` auto-rotate ticks return to the start.
- `i18n.dfy` (module `I18n`): the answer of the translation function, and
  `getFontClass`. `getFontClass` has the same text in both files
  (Gallery.jsx:15-21 and ServicesPreview.jsx:18-24), so it is modelled once.
- `gallery.dfy` (module `Gallery`): the gallery's label functions, the filter
  bar, `findIndex`, and the class `GalleryPage` with one method per handler.
  Its invariants are `Valid` (the index is never below -1) and
  `LightboxConsistent` (when open, `0 <= index < |images|` and
  `images[index]` is the selected image).
- `services_preview.dfy` (module `ServicesPreview`): `safeTranslate` with its
  try/catch, `relDiff`, the card classification and styles, the indicators,
  the swipe decision, and the class `Carousel` with the timer, indicator and
  touch handlers.
- `wrappers.dfy` (module `Wrappers`): `Option` (JavaScript's `null`) and
  `Result` (an exception that propagates).

Environment inputs are parameters:
- An image or category fetch that completes is a method call carrying the
  fetched list (`ImagesLoaded`, `CategoriesLoaded`).
- The translation function `t` is a Dafny function that returns a `Reply`:
  a string, nothing, or a throw.
- The window width and the touch coordinates are integer arguments.
- The 2600 ms interval firing is a call to `Carousel.Tick`.

Behaviour of the code worth noting:
- The gallery's keydown listener stays attached whether or not the lightbox
  is open, and returns at once while no image is selected. It is
  re-subscribed whenever the selected image, the current index or the image
  list changes (Gallery.jsx:83); a change of filter or categories alone does
  not re-subscribe it.
- Opening the lightbox looks the clicked image up by id (`findIndex`); it
  does not use the position that was clicked. With duplicate ids it opens at
  the first match. For an image missing from the list, the index becomes -1
  while the image is still shown.
- A failed fetch is not handled at all: there is no error state.

## Model

| member | source | states |
|---|---|---|
| `Circular.Rem` | src/pages/Gallery.jsx:69 | JavaScript `%` for a positive divisor: the result lies strictly between `-n` and `n`, has the sign of the dividend and is congruent to it modulo `n` |
| `Circular.Next` | src/pages/Gallery.jsx:62 | `(i + 1) % n` is a valid index for every `i >= -1` and is congruent to `i + 1` |
| `Circular.Prev` | src/pages/Gallery.jsx:69 | `(i - 1 + n) % n` is a valid index for every `i >= 1 - n` and is congruent to `i - 1` |
| `Circular.NextStep` | src/pages/Gallery.jsx:60-65 | on a valid index, next moves one to the right and wraps from the last index to 0 |
| `Circular.PrevStep` | src/pages/Gallery.jsx:67-72 | on a valid index, previous moves one to the left and wraps from 0 to the last index |
| `Circular.RoundTrip` | src/pages/Gallery.jsx:60-72 | previous after next, and next after previous, return to the starting index |
| `Circular.SingleElementFixed` | src/pages/Gallery.jsx:60-72 | on a one-element list both steps stay at index 0 |
| `Circular.StepsMove` | src/pages/Gallery.jsx:60-72 | on a list of two or more, both steps move to a different index |
| `Circular.Advance` | src/components/ServicesPreview.jsx:45-47 | the index after `k` auto-rotate ticks is always a valid card index |
| `Circular.AdvanceIsOffset` | src/components/ServicesPreview.jsx:45-47 | `k` ticks from `i` land on `(i + k) mod n` |
| `Circular.FullCycleReturns` | src/components/ServicesPreview.jsx:45-47 | `n` ticks bring the carousel back to the card it started on |
| `I18n.FontClass` | src/pages/Gallery.jsx:15-21 | "ta" gives tamil-font, "hi" gives hindi-font, every other code english-font, each in both directions |
| `Gallery.SafeTranslate` | src/pages/Gallery.jsx:23-26 | returns the translation exactly when it is a non-empty string other than the key, else the fallback; a throwing lookup propagates |
| `Gallery.CategoryLabel` | src/pages/Gallery.jsx:32 | a category's label is its translation, else its non-empty title, else its raw key |
| `Gallery.DisplayCategories` | src/pages/Gallery.jsx:29-34 | succeeds exactly when no lookup throws; then keeps the length and order of the categories, with `id` equal to the key and `name` equal to the category's label |
| `Gallery.FilterButtons` | src/pages/Gallery.jsx:107-115 | one button per category; a button is active exactly when its id is the current filter; the "all" button shows `t("allPhotos")`, the others their label |
| `Gallery.ClickedButtonOnlyActive` | src/pages/Gallery.jsx:110-111 | with distinct keys, after clicking a button it is the only active one |
| `Gallery.FindIndex` | src/pages/Gallery.jsx:55 | `findIndex` on id: the first position holding the id, or -1 exactly when no image has it |
| `Gallery.FindIndexLocates` | src/pages/Gallery.jsx:54-58 | with distinct ids, the index found for a listed image holds that very image |
| `Gallery.NavShownIffStepMoves` | src/pages/Gallery.jsx:155-167 | the guard `NavShown` of the previous/next buttons (more than one image) holds exactly when a next step, and exactly when a previous step, would change the index |
| `Gallery.SingleImageScenario` | src/pages/Gallery.jsx:43-80 | with one image loaded, clicking it opens the lightbox at index 0 and ArrowRight keeps index 0 and the same image |
| `Gallery.GalleryPage.constructor` | src/pages/Gallery.jsx:9-13 | initial state: no categories or images, filter "all", lightbox closed at index 0 |
| `Gallery.GalleryPage.CategoriesLoaded` | src/pages/Gallery.jsx:36-41 | the fetched categories replace the stored ones |
| `Gallery.GalleryPage.SelectFilter` | src/pages/Gallery.jsx:111 | a filter click sets the active filter key |
| `Gallery.GalleryPage.ImagesLoaded` | src/pages/Gallery.jsx:43-50 | a completed load replaces the list wholesale, clears the selection and sets the index to 0, whatever the previous lightbox state; both invariants hold afterwards |
| `Gallery.GalleryPage.ClickImage` | src/pages/Gallery.jsx:54-58 | the index becomes the first position of the clicked image's id and the selection that image; with distinct ids and a listed image the lightbox invariant holds |
| `Gallery.GalleryPage.NextImage` | src/pages/Gallery.jsx:60-65 | nothing changes on an empty list; otherwise the index becomes `(i + 1) % n` and the selection `images[index]`, so the lightbox invariant holds |
| `Gallery.GalleryPage.PrevImage` | src/pages/Gallery.jsx:67-72 | nothing changes on an empty list; otherwise the index becomes `(i - 1 + n) % n` and the selection `images[index]`, so the lightbox invariant holds |
| `Gallery.GalleryPage.KeyDown` | src/pages/Gallery.jsx:74-83 | every key is ignored while closed; ArrowRight acts as next, ArrowLeft as previous, Escape clears the selection and keeps the index; other keys change nothing; the lightbox invariant is preserved |
| `Gallery.GalleryPage.HideModal` | src/pages/Gallery.jsx:148 | closing the modal clears the selection and changes nothing else |
| `ServicesPreview.SafeTranslate` | src/components/ServicesPreview.jsx:26-33 | the translation when `t` exists, does not throw and returns a non-empty string other than the key; the fallback when `t` is missing, throws, returns nothing or an empty string, or echoes the key |
| `ServicesPreview.RelDiff` | src/components/ServicesPreview.jsx:51-58 | the current card is at distance 0; for valid indices the distance `d` satisfies `2 * abs(d) <= n`, is `0` only for the current card, and differs from `index - current` by a multiple of `n` |
| `ServicesPreview.Classify` | src/components/ServicesPreview.jsx:202-207 | active exactly at distance 0, side exactly at distance 1 or -1, hidden otherwise |
| `ServicesPreview.CardStyleAt` | src/components/ServicesPreview.jsx:209-229 | translateX is `140 * d`, rotateY is `12 * d`; zIndex and blur are 3/0, 2/2 and 0/6 for active, side and hidden; colorIndex lies in 1..10 and is congruent to `idx + 1` modulo 10 |
| `ServicesPreview.Cards` | src/components/ServicesPreview.jsx:201-252 | one card per domain, in domain order |
| `ServicesPreview.ExactlyOneActive` | src/components/ServicesPreview.jsx:202-207 | exactly one card is active, the one at `currentIndex`, and it is centred and unrotated |
| `ServicesPreview.ActiveOnTop` | src/components/ServicesPreview.jsx:229 | the active card has a higher zIndex than every other card, and every side card a higher one than every hidden card |
| `ServicesPreview.SideIffNeighbour` | src/components/ServicesPreview.jsx:202-207 | a card is a side card exactly when it is not current and is the next or previous card on the ring |
| `ServicesPreview.NeighbourDirections` | src/components/ServicesPreview.jsx:213-215 | with three or more cards, the card one slot to the right is the one next brings to the front, and the card one slot to the left the one previous brings |
| `ServicesPreview.Indicators` | src/components/ServicesPreview.jsx:257-265 | indicator `i` is active exactly when `i` is the current index |
| `ServicesPreview.IndicatorMatchesActiveCard` | src/components/ServicesPreview.jsx:257-265 | the active indicator is always the active card |
| `ServicesPreview.SwipeTarget` | src/components/ServicesPreview.jsx:74-80 | a drag over 40 pixels to the right moves back a card, over 40 to the left forward a card, anything shorter stays; the result is a valid index |
| `ServicesPreview.SwipeBackReturns` | src/components/ServicesPreview.jsx:74-80 | a swipe one way followed by a swipe the other way returns to the same card |
| `ServicesPreview.SwipeScenario` | src/components/ServicesPreview.jsx:65-80 | a 100-pixel drag left then a 100-pixel drag right return the carousel to the card it showed before |
| `ServicesPreview.Carousel.constructor` | src/components/ServicesPreview.jsx:11-14 | the carousel starts at card 0 with no gesture; it is in mobile mode exactly when a window exists and is at most 768 pixels wide |
| `ServicesPreview.Carousel.Resize` | src/components/ServicesPreview.jsx:36-40 | mobile mode follows the window width |
| `ServicesPreview.Carousel.Tick` | src/components/ServicesPreview.jsx:42-49 | in mobile mode an interval tick moves to `(i + 1) % n`, otherwise nothing changes; `currentIndex` stays in `[0, n)` |
| `ServicesPreview.Carousel.IndicatorClick` | src/components/ServicesPreview.jsx:261 | clicking indicator `i` sets `currentIndex` to `i` |
| `ServicesPreview.Carousel.TouchStart` | src/components/ServicesPreview.jsx:65-68 | a touch start records its position and zeroes the drag |
| `ServicesPreview.Carousel.TouchMove` | src/components/ServicesPreview.jsx:69-73 | ignored without a touch start; otherwise the drag becomes the position minus the start |
| `ServicesPreview.Carousel.TouchEnd` | src/components/ServicesPreview.jsx:74-80 | moves as the swipe decision says, keeps `currentIndex` in `[0, n)`, and always resets the start to null and the drag to 0 |

## Left out

- HTTP: `fetchCategories` and `fetchImages` are not part of this model. A completed fetch is an event carrying its list. The server-side filtering by category key is outside the component.
- Overlapping image fetches, where the last response to arrive wins: this is event-loop concurrency. Each load is one atomic "list replaced" event, in whatever order the responses arrive.
- Rejected fetches: the page does not catch them, so there is nothing local to model.
- The desktop orbit animation (ServicesPreview.jsx:89-151): floating-point `Math.cos`/`Math.sin`, `requestAnimationFrame` and DOM style writes.
- ServicesPreview.SafeTranslate: the fallback is always passed; a missing or `undefined` fallback (the source's default `""`, ServicesPreview.jsx:26) is passed as `""`, as for a domain without a title at ServicesPreview.jsx:175, 235 and 244.
- The fractional style values `scale` and `opacity` (ServicesPreview.jsx:216, 218).
- `handleDomainClick` navigation, the category badge lookup under each image (Gallery.jsx:138), and JSX rendering and CSS in general.
- The translation function itself (the language context is not part of this model). Its answers are only strings, nothing, or a throw. A truthy non-string answer is not modelled.
- The rendered text of `t("allPhotos")` is a parameter of `Gallery.FilterButtons`.
- A category title that is `null`/`undefined` is represented as the empty string; all three are falsy.
- Touch coordinates are integers here; `clientX` may be fractional in the browser.
- `ServicesPreview.Carousel.constructor` requires at least one domain. The domain list comes from a static JSON file (`Services.json`, not part of this model). With zero domains the source's `% 0` yields `NaN`, which is not modelled.
- `ServicesPreview.Carousel.Tick`: the 2600 ms period is not modelled; each call is one firing.
