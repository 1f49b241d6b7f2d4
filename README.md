# Moments Cafe site scripts, modelled in Dafny

This project models the logic of the two scripts of the Moments Cafe
restaurant site.

`script.js` provides:

- the reviews carousel: wrap-around next/previous, dot jumps, and the auto-advance interval that hovering pauses;
- the menu tab selector;
- the "write a review" modal with its star rating;
- the booking form's submit validation and its phone-number formatter;
- the scroll-spy that highlights the navigation link of the section in view;
- the mobile navigation toggle with its icon, and the scroll target of in-page links.

`app.js` provides:

- the WhatsApp booking form: trim, a required-field check, and a `wa.me` deep link whose text is built with `encodeURIComponent`;
- the simpler navigation pair of the second page variant, with `scrollToSection`.

## How the model is built

A `classList` "active" flag is a `bool`. A list of elements is an array of
flags, owned by a class whose methods are the event handlers. Each method
writes the flags in the same `forEach` order as the code, and its `ensures`
gives the whole new state.

The pure parts are functions with lemmas:

- the index arithmetic;
- the validators;
- the formatter;
- `trim`;
- `encodeURIComponent`;
- the message template.

JavaScript semantics are written out where they matter:

- A JS number is `Num = Int | NaN`.
- `%` is the truncating remainder (`JsCore.Rem`), so an empty carousel gives `NaN` and shows no card.
- `getElementById` returns the first element carrying the id, and never matches the empty id.
- `classList.replace` does nothing when the old token is absent (`Navigation.BarsToTimes`, `Navigation.TimesToBars`).
- The header height of a link scroll is `header ? header.offsetHeight : 70` (`PageLayout.HeaderHeightOrDefault`), that of the hero button and the scroll spy `header?.offsetHeight || 70`.
- `PageLayout.Ids` lists the page's ids in document order for the lookup.

Other modelling choices:

- **Dates** are integer day numbers.
- **DOM offsets** are integers.
- **Timers** are a value `Timers(live, handleLive)`. It counts the running intervals, and records whether the one named by `autoSlideInterval` is still running, because `clearInterval` can only stop that one.
- **`encodeURIComponent`** is modelled concretely:
  - the ECMAScript unescaped set, UTF-8, and upper-case hex octets, as in section 2.1 of RFC 3986;
  - its partner is a percent-decoder followed by a UTF-8 decoder (RFC 3629);
  - the round trip is proved.

Where the site's written description and the code disagree, the model follows
the code:

- **Scroll spy.** Every matching section rewrites the link flags, so the *last* match in document order wins, not the first.
  - `ScrollSpy.LastMatchIsFirstWhenDisjoint` shows the two agree whenever no two section ranges overlap.
  - The range is `[top − h − 100, top − h − 100 + height)`.
- **Booking check (script.js).** The code does not check the name's length or a guest count.
  - It reports *all* missing fields at once, in the fixed order fullName, phoneNumber, date, time, bookingFor.
  - Only then does it check the phone, then the date.
- **Carousel.** `goToReview` has no bounds check. The dots only ever pass their own index.
  - The *mouseleave* handler starts an interval even with zero or one card (see Findings).

## Model

| member | source | states |
|---|---|---|
| JsCore.Rem | script.js:178-186 | JS `%`: a number exactly when both operands are and the divisor is non-zero; magnitude below the divisor's; sign of the dividend; the mathematical remainder for non-negative operands |
| JsCore.GetElementById | script.js:133 | the index of the first element whose id is the one asked for; none for the empty id or an id no element carries |
| JsCore.GetElementByIdUnique | script.js:133-136 | with distinct ids, the lookup finds index j exactly when element j carries the (non-empty) id |
| Carousel.NextWraps | script.js:178-181 | for 0 ≤ i < N, next is i+1, and 0 after the last card |
| Carousel.PrevWraps | script.js:183-186 | for 0 ≤ i < N, previous is i−1, and N−1 before the first card |
| Carousel.PrevNextInverse | script.js:178-186 | previous undoes next and next undoes previous |
| Carousel.AdvanceIsModular | script.js:178-181 | k presses of next from card i show card (i+k) mod N |
| Carousel.FullCircle | script.js:178-181 | N presses of next return to the starting card |
| Carousel.EmptyCarouselIsNaN | script.js:178-186 | with no cards both index computations give NaN |
| Carousel.NextIndex | script.js:179 | `(currentReview + 1) % length`; specified by `NextWraps`, `AdvanceIsModular` and `EmptyCarouselIsNaN` |
| Carousel.PrevIndex | script.js:184 | `(currentReview - 1 + length) % length`; specified by `PrevWraps`, `PrevNextInverse` and `EmptyCarouselIsNaN` |
| Carousel.InitialTimers | script.js:218-220 | at start-up one interval runs exactly when there are at least two cards, and it is the one the handle names |
| Carousel.StartInterval | script.js:193-195 | `setInterval` overwrites the handle: starting leaves a single interval, the one the handle names, exactly when none was running before; over a running one it leaves more than one |
| Carousel.ClearInterval | script.js:225 | `clearInterval` stops at most one interval, the one the handle names, and clearing the single interval leaves none |
| Carousel.ResetAutoSlide | script.js:197-200 | clear-then-start leaves the handle live and keeps a single interval single |
| Carousel.MouseLeaveLeaksInterval | script.js:193-226 | hover, click a button, leave, as written: two intervals run and the carousel no longer has a single one |
| Carousel.ResumeAutoSlide | script.js:226 | corrected mouseleave: clear before starting, so a single interval stays single (exactly one) |
| Carousel.ResumeKeepsOneInterval | script.js:223-227 | hover, click, leave with the corrected handler leaves exactly one interval |
| Carousel.ReviewsSlider.constructor | script.js:148-160 | cards as the page had them, index 0, a dot per card with the first active when there is a dots container, the start-up timers |
| Carousel.ReviewsSlider.ShowReview | script.js:164-176 | card j and dot j are active exactly when j is the index, and `currentReview` is the index |
| Carousel.ReviewsSlider.NextReview | script.js:178-181 | the index becomes the next index and exactly that card and dot are shown; the index stays in range |
| Carousel.ReviewsSlider.PrevReview | script.js:183-186 | the index becomes the previous index and exactly that card and dot are shown |
| Carousel.ReviewsSlider.ClickNext | script.js:203-208 | next, then the interval is reset |
| Carousel.ReviewsSlider.ClickPrev | script.js:210-215 | previous, then the interval is reset |
| Carousel.ReviewsSlider.ClickDot | script.js:188-191 | dot k shows card k and dot k only and resets the interval |
| Carousel.ReviewsSlider.AutoAdvance | script.js:194 | a firing of the interval advances like the next button, without touching the timers |
| Carousel.ReviewsSlider.MouseEnter | script.js:225 | hovering stops the carousel's only interval |
| Carousel.ReviewsSlider.MouseLeave | script.js:226 | leaving (corrected) resumes exactly one interval |
| MenuTabs.TabSelector.Click | script.js:123-138 | exactly the clicked tab is active, and a category is active exactly when it is the one `getElementById(data-category)` finds; with distinct category ids, exactly the category whose id is the tab's non-empty `data-category` |
| ReviewModal.PrefixCount | script.js:283-292 | a prefix-shaped star row lights exactly as many stars as the rating |
| ReviewModal.ReviewModal.constructor | script.js:231-239 | closed modal, no scroll lock, rating 0, no star active |
| ReviewModal.ReviewModal.Open | script.js:241-246 | with both the button and the modal present: active and `overflow: hidden`; otherwise nothing changes |
| ReviewModal.ReviewModal.CloseModal | script.js:249-258 | when the modal exists: inactive, overflow restored to "", rating 0, every star inactive; otherwise nothing changes |
| ReviewModal.ReviewModal.OverlayClick | script.js:266-272 | a click on the overlay itself closes an existing modal, resetting the rating and every star; a click inside the dialog, or on a page without the modal, changes nothing |
| ReviewModal.ReviewModal.KeyDown | script.js:275-279 | Escape closes the modal only when it exists and is open; any other key, or a closed modal, changes nothing |
| ReviewModal.ReviewModal.StarClick | script.js:283-292 | the rating becomes k+1 and star i is active exactly when i < k+1 |
| ReviewModal.ReviewModal.StarEnter | script.js:294-303 | stars 0..k turn gold, the rest grey |
| ReviewModal.ReviewModal.RatingLeave | script.js:306-317 | the colours show the selected rating again: gold exactly where the star is active |
| Phone.Digits | script.js:376 | `replace(/\D/g, '')` keeps only ASCII digits and never lengthens the string |
| Phone.DigitsOfNonDigits | script.js:376 | a string without digits has none to keep; with `DigitsAppend` and `DigitsOfDigits` this fixes `Digits` as the filter that keeps exactly the digits, in order |
| Phone.SliceLast | script.js:376 | `slice(-10)`: the last ten characters, or all of a shorter string, forming a suffix |
| Phone.ValidPhone | script.js:375-376 | the submit-time phone check; specified by `ValidPhoneIff` |
| Phone.ValidPhoneIff | script.js:375-376 | the phone check passes exactly when the field holds at least ten digits, anywhere among other characters |
| Phone.FormatPhone | script.js:403-418 | the phone field's input formatter; specified by `FormatPhoneShape`, `DigitsOfFormatted`, `FormatPhoneIdempotent` and `FormattedPhoneValid` |
| Phone.FormatPhoneShape | script.js:403-418 | without its dash, the output is the first min(10, #digits) digits; it has a dash exactly at index 5 and exactly when six or more digits are kept; every other character is a digit |
| Phone.DigitsOfFormatted | script.js:403-418 | the digits of the output are the digits the formatter kept |
| Phone.FormatPhoneIdempotent | script.js:403-418 | formatting a formatted value changes nothing |
| Phone.FormattedPhoneValid | script.js:375-418 | a formatted value passes the submit check exactly when the typed input had ten digits or more |
| Booking.Rank | script.js:366 | each field's position in the required-field list |
| Booking.IsMissing | script.js:367 | `!bookingData[field]`: an empty text field or an empty date |
| Booking.MissingAmong | script.js:367 | `fields.filter(field => !bookingData[field])`: never longer than the list; membership and order in `MissingAmongMembers` and `MissingAmongOrdered` |
| Booking.MissingAmongMembers | script.js:367 | the filter keeps exactly the listed fields that are missing |
| Booking.MissingAmongOrdered | script.js:367 | the filter keeps the order of the list |
| Booking.MissingFieldsSpec | script.js:366-367 | the reported list holds exactly the missing fields, in the order fullName, phoneNumber, date, time, bookingFor |
| Booking.Validate | script.js:365-389 | the submit handler's verdict; specified by `ValidateOrder` |
| Booking.ValidateOrder | script.js:366-389 | each verdict holds exactly when all earlier checks pass and its own fails: missing fields, then fewer than ten digits, then a date before today; a date equal to today is accepted |
| PageLayout.FindElement | script.js:54 | the element found is on the page, carries the id and is the first that does; none exactly for the empty id or one no element carries |
| PageLayout.HeaderHeightOrDefaultIfZero | script.js:106 | `?.offsetHeight \|\| 70`: always positive, 70 for a missing or zero-height header |
| PageLayout.HeaderFallbacksDiffer | script.js:106 | the two header rules differ exactly for a present header of height 0 |
| ScrollSpy.LastMatch | script.js:469-481 | the last section whose range contains the offset: it matches and no later one does; none means no section matches |
| ScrollSpy.FirstMatch | script.js:469-481 | reference selection by first match: it matches and no earlier one does |
| ScrollSpy.LastMatchIsFirstWhenDisjoint | script.js:469-481 | when no two ranges contain the offset at once, last-match and first-match select the same section |
| ScrollSpy.NavLinks.MarkLinksFor | script.js:475-480 | a link is active exactly when its href is `#` + the section's id |
| ScrollSpy.NavLinks.HighlightNavigation | script.js:465-483 | if a section matches, the active links are exactly those of the last matching section; otherwise every flag is unchanged |
| Navigation.ToggleKeepsMirror | script.js:22-31 | a toggle keeps the icon mirroring the menu: a cross exactly while open |
| Navigation.LinkClickResynchronises | script.js:36-44 | a link click leaves a closed menu with the bars icon from either icon state |
| Navigation.NavMenu.Toggle | script.js:22-31 | the menu flag flips, the icon follows the new state, and mirroring is kept |
| Navigation.NavMenu.LinkClick | script.js:36-44 | the menu closes and the icon shows bars |
| Navigation.LinkScrollTarget | script.js:48-72 | the offset a navigation link scrolls to; specified by `LinkScrollTargetSpec` and `BookingLinksGoToContact` |
| Navigation.LinkScrollTargetSpec | script.js:48-72 | a link scrolls exactly when its href starts with `#` and its destination exists, and then to the destination's top minus the header height |
| Navigation.BookingLinksGoToContact | script.js:53-59 | `#booking` and the `nav__cta` link go where `#contact` goes, even when a `booking` element exists |
| Navigation.HeroCtaTarget | script.js:100-115 | the hero button scrolls exactly when a `contact` element exists, and then to its top minus `header?.offsetHeight \|\| 70` |
| Navigation.HeroMatchesBookingLink | script.js:100-115 | the hero button and the booking link reach the same offset unless the header has zero height |
| UriComponent.HexDigit | app.js:81 | each half octet becomes an upper-case hex digit |
| UriComponent.HexValueOfDigit | app.js:81 | a written hex digit reads back as its value |
| UriComponent.DecodeFirstUtf8 | app.js:81 | the UTF-8 octets of a scalar value decode back to it, whatever follows |
| UriComponent.Utf8DecodeEncode | app.js:81 | UTF-8 decoding of an encoded string followed by more octets yields the string first |
| UriComponent.Utf8RoundTrip | app.js:81 | UTF-8 decoding inverts UTF-8 encoding |
| UriComponent.Utf8EncodeAppend | app.js:81 | UTF-8 encoding distributes over concatenation |
| UriComponent.DecodeOctetsAppend | app.js:81 | a fully decodable text decodes independently of what follows it |
| UriComponent.DecodePercentOctets | app.js:81 | `%XY` triples decode to the octets they were written from |
| UriComponent.DecodeOctetsOfEncode | app.js:81 | percent-decoding `encodeURIComponent(s)` yields the UTF-8 octets of s |
| UriComponent.Encode | app.js:81 | `encodeURIComponent`; specified by `RoundTrip` and `EncodeAlphabet` |
| UriComponent.RoundTrip | app.js:81 | decoding `encodeURIComponent(s)` gives back s, for every string |
| UriComponent.DecodeOctetsPlain | app.js:81 | text without `%` percent-decodes to its own UTF-8 octets |
| UriComponent.EncodeAlphabet | app.js:81 | an encoded value holds only unescaped characters, `%` and hex digits, so no `&`, `#`, `=` or space |
| WhatsAppBooking.TrimStart | app.js:69-70 | a suffix of the input not starting with white space |
| WhatsAppBooking.TrimEnd | app.js:69-70 | a prefix of the input not ending with white space |
| WhatsAppBooking.TrimStartCut | app.js:69-70 | what is cut at the start is all white space |
| WhatsAppBooking.TrimEndCut | app.js:69-70 | what is cut at the end is all white space |
| WhatsAppBooking.Trim | app.js:69-70 | `String.prototype.trim`; specified by `TrimSpec` and `TrimBounds` |
| WhatsAppBooking.TrimBounds | app.js:69-70 | the trimmed value is a slice s[i..j] with only white space before i and after j |
| WhatsAppBooking.TrimSpec | app.js:69-70 | `trim()` cuts only white space, leaves none at either end, and gives "" exactly for an all-white-space input |
| WhatsAppBooking.Submit | app.js:66-84 | the submit handler; specified by `SubmitRejectedIff` and `SubmittedLinkCarriesSummary` |
| WhatsAppBooking.SubmitRejectedIff | app.js:69-78 | rejected exactly when name or phone is empty or white space only, or date, guests or booking type is empty; the time field plays no part |
| WhatsAppBooking.GreetingNoPercent | app.js:81 | the greeting contains no `%` |
| WhatsAppBooking.GreetingDecodes | app.js:81 | the greeting and its first `%0A` decode to the greeting and a line break |
| WhatsAppBooking.LineDecodes | app.js:81 | a line `%0A<label><encoded value>` decodes to a line break, the label and the value as typed |
| WhatsAppBooking.Message | app.js:81 | the `message` template; specified by `MessageDecodes` |
| WhatsAppBooking.MessageDecodes | app.js:81 | the whole message decodes to the greeting, a blank line, then Name, Phone, Date, Guests and Booking Type lines, in that order, with each value exactly as typed |
| WhatsAppBooking.SubmittedLinkCarriesSummary | app.js:81-84 | an accepted submission opens `https://wa.me/918112291143?text=` followed by text that decodes to the summary of the trimmed name and phone and the other fields as given |
| AppNavigation.NavPair.Toggle | app.js:8-11 | both flags flip; flags that were equal stay equal |
| AppNavigation.NavPair.CloseMenu | app.js:14-19 | both flags become false (and so equal) |
| AppNavigation.ScrollToSection | app.js:22-33 | `scrollToSection(sectionId)`; specified by `ScrollToSectionSpec` |
| AppNavigation.ScrollToSectionSpec | app.js:22-33 | no scrolling exactly for an empty or unknown id; a page without `.header` throws for an existing section; otherwise the target is the section's top minus the header height |
| AppNavigation.SubstringFrom1 | app.js:40 | `substring(1)`: the string after its first character, "" for "" |
| AppNavigation.NavLinkScroll | app.js:36-43 | the scrolling handler of a `.nav-link`: no href throws; specified by `HashLinkScrollsToId` and `BareHashScrollsNowhere` |
| AppNavigation.HashLinkScrollsToId | app.js:36-43 | a link `#id` scrolls exactly like `scrollToSection(id)` |
| AppNavigation.BareHashScrollsNowhere | app.js:36-43 | hrefs `#` and "" ask for the empty id and scroll nowhere |
| AppNavigation.NavLinkClick | app.js:14-43 | a link click closes menu and toggle, then scrolls as `NavLinkScroll` says |

## Left out

- Timing: the 4000 ms period, `setTimeout`, `requestAnimationFrame` and the `ticking` flag of the scroll handler (script.js:486-497), and `debounce`/`throttle` (script.js:501-524).
  - No interval fires on its own. `AutoAdvance` is one firing, run on demand.
  - A scroll event is one call of `HighlightNavigation`.
- Event wiring, DOM queries and `FormData`.
  - Handlers are methods, and element lists are arrays.
  - `getElementById` searches only the modelled elements (the category panels; the page's sections and targets), not the whole document.
- A tab without a `data-category` attribute. Its `getAttribute` returns null, which JavaScript turns into the id "null". The model takes every target to be a string.
- Page styling:
  - the sticky header background (script.js:75-83; app.js:46-53);
  - the IntersectionObserver fade-ins and injected CSS (script.js:424-459);
  - image lazy-loading (script.js:532-552);
  - the hero entrance animation (script.js:89-97).

  Star hover colours are modelled only as gold/grey flags.
- `Date` parsing, `toISOString` and time zones (script.js:346-350, 382-386). Dates are whole day numbers already compared at local midnight, and the date input's `min` attribute is not modelled.
- `alert` texts, `console.log`, `window.open` and `window.scrollTo`.
  - `Booking.Validate` gives which alert would show, and the missing fields in order, instead of the joined text.
  - The scroll functions return the target offset.
- `reviewForm.reset()` in `closeModal`, the booking form's `this.reset()`, and the review form submission (script.js:320-337), which only logs and alerts.
- The mouseleave handler starts an interval even for zero or one card. The corrected `Carousel.ReviewsSlider.MouseLeave` keeps that behaviour and does not add a guard.
- The review modal's starting classes. `initModal` (script.js:231-239) sets only `selectedRating = 0`; the modal's "active" class, the body's `overflow` and the stars' "active" classes come from the page's markup and are never cleared there. `ReviewModal.ReviewModal.constructor` takes the page to load with the modal closed, `overflow` "" and no star active.
- Lone UTF-16 surrogates, on which `encodeURIComponent` throws. Dafny's `char` is a Unicode scalar value, so they cannot occur.
- Decoding by the receiver is not part of the app, which only builds the link. The decoder here exists to state what the receiver reads.

## Findings

| source | as written | input that shows it | evidently intended | confidence | as-written member | corrected member |
|---|---|---|---|---|---|---|
| script.js:193-226 | `mouseleave` calls `startAutoSlide`, which overwrites `autoSlideInterval` without clearing the interval already running | with two or more cards, hover the slider (the interval stops), click next (`resetAutoSlide` starts one), then leave: a second interval starts, two run at once, and the first can no longer be cleared | leaving the slider resumes the single auto-advance interval (clear, then start) | not executed | Carousel.MouseLeaveLeaksInterval | Carousel.ResumeAutoSlide |
