# SoyaSatva storefront scripts, modelled in Dafny

SoyaSatva is a static web shop for soya products. Its browser scripts keep a
comparison list of up to three products, collect star-rated customer feedback in
local storage, filter, search and sort a fixed product catalog, validate a contact
form and a newsletter box, and drive a few page widgets (a testimonial slider, a FAQ
accordion, the highlighted navigation link). This project models those five scripts
and proves what each promises.

Layout, one module per file:

- `seqs.dfy` (`Seqs`): `Option`, a filter with its exact-selection lemma, and a
  first-match lookup (`Array.prototype.filter` and `find`).
- `text.dfy` (`Text`): the string built-ins the scripts lean on: `trim`, ASCII
  `toLowerCase`, `includes`, decimal `parseInt`, number-to-text, a single
  `replace`, `repeat`, and a global character-class `replace` with `''`.
- `patterns.dfy` (`Patterns`): the e-mail and phone regular expressions, each with
  a direct characterisation proved equivalent.
- `storage.dfy` (`Storage`) and `notices.dfy` (`Notices`): one local-storage key,
  and the toast notifications a script raises.
- `sorting.dfy` (`Sorting`): `Array.prototype.sort` with a numeric comparator, as an
  in-place insertion sort proved to compute a stable, ordering, permuting
  specification.
- `catalog.dfy` (`Catalog`): the twelve catalog records of `js/products.js`, the
  product modal lookup, the category filter, the search box and the sort selector.
  The four descriptive texts of each record (`ProductTexts`) are kept apart from its
  id, name, category, price, popularity, badge and emoji (`Records`), and
  `ProductsData` is `Records(ProductTexts)`; facts about ids and prices are proved
  for any descriptive texts.
- `compare.dfy` (`Compare`): the comparison store of `js/compare.js` as a class over
  its fields, with the bar, the checkboxes and the comparison table it renders.
- `feedback.dfy` (`Feedback`): the feedback store, the star widget, the feedback form
  and the star display of `js/feedback.js`.
- `contact.dfy` (`Contact`): the contact page of `js/contact.js`.
- `site.dfy` (`Site`): the widgets and the second pair of validators of `js/main.js`.

Where the scripts touch the page, the model keeps only the state that decides
behaviour: the `active` class of a slide, star, dot or FAQ item is a `bool` in an
array; a text box is a `string`; a toast is a `Notice` appended to a list. The clock,
the storage's ability to write and the catalog a page exposes are parameters.

Behaviour modelled as the code has it:

- The comparison table's description cell falls back to `fullDesc.substring(0, 80) +
  '...'`, which is never falsy, so its final `'No description'` fallback is never
  reached (`Compare.DescriptionSpec`); a missing `fullDesc` yields `"undefined..."`.
- The contact form's submit handler passes the untrimmed e-mail to `validateEmail`
  while `validateField` passes the trimmed one, so a padded address passes on focus
  loss and fails on submit (`Contact.PaddedEmailRefusedOnlyOnSubmit`).
- `highlightActiveLink` also accepts `currentPage === ''`, but the page it computes is
  never empty (`Site.CurrentPage`), so that second test never fires.
- `js/contact.js` and `js/main.js` both declare global `validateEmail` and
  `validatePhone`; which pair a page ends up with depends on script order in HTML that
  is not part of this model, so both pairs are modelled and compared
  (`Site.EmailValidatorsAgree`, `Site.ContactPhoneAccepted`,
  `Site.TenParenthesesOnlyHere`).

## Model

| member | source | states |
|---|---|---|
| Seqs.FilterIsExactSelection | js/products.js:295 | a filter keeps the elements satisfying the test in their original order, each exactly as often as the input has it, and drops the rest |
| Seqs.FilterIdempotent | js/contact.js:319 | filtering a second time with the same test changes nothing |
| Seqs.FindFirst | js/products.js:226 | a found record carries the key and is the first one that does; nothing is found exactly when no record carries the key |
| Text.Trim | js/contact.js:104 | the trimmed text is a slice of the input that neither starts nor ends with white space, and everything cut off was white space |
| Text.TrimEmptyIff | js/contact.js:108 | a value trims to empty exactly when it is all white space |
| Text.IncludesIff | js/products.js:310-312 | `includes` holds exactly when the term occurs at some position |
| Text.NatToStringRoundTrip | js/feedback.js:207 | the decimal text of a number reads back as that number |
| Text.ParseIntOfNatToString | js/products.js:334-335 | `parseInt` of a number's decimal text gives that number |
| Text.ParseIntOfDigitsThen | js/compare.js:162-166 | `parseInt` reads the leading number of a text that continues with a non-digit |
| Patterns.EmailRegexIff | js/main.js:441-444 | the e-mail pattern matches exactly the texts with no white space, one '@' with text before it, and a '.' after the '@' that is neither next to it nor last |
| Patterns.EmailRegexIgnoresCase | js/contact.js:224-227 | lower-casing a text does not change whether the e-mail pattern matches it |
| Sorting.InsertionSortBy | js/products.js:330-346 | the in-place sort leaves the array equal to the stable insertion-sort specification of its old content |
| Sorting.InsertLast | js/products.js:330-346 | one pass shifts the higher-ranked part of the sorted prefix right and puts the element where the specification inserts it, leaving the rest of the array alone |
| Sorting.SortByOrdered | js/products.js:330-346 | the sorted sequence never decreases in rank |
| Sorting.SortByPermutes | js/products.js:330-346 | sorting is a permutation of its input |
| Sorting.SortByStable | js/products.js:330-346 | elements of equal rank keep their input order |
| Sorting.SortByOrderedInput | js/products.js:330-346 | an input already in rank order is returned unchanged |
| Catalog.CatalogIds | js/products.js:7-165 | whatever the descriptive texts, the catalog holds twelve records numbered 1 to 12 in order, so no id repeats |
| Catalog.CatalogPriceAt | js/products.js:7-165 | whatever the descriptive texts, every catalog price is '₹' and a whole number that the sort comparators' `parseInt` reads back |
| Catalog.FindProductIff | js/products.js:226 | in the catalog a product is found exactly for the ids 1 to its length, and it is the record at that position |
| Catalog.OpenProductModal | js/products.js:225-247 | an unknown id leaves the modal as it was; a known id shows that product and records its id |
| Catalog.OpenProductModalSpec | js/products.js:225-247 | on the catalog the modal opens exactly for ids 1 to 12, showing the record at that position |
| Catalog.CloseProductModal | js/products.js:249-255 | closing leaves the modal closed |
| Catalog.FilterByCategorySpec | js/products.js:289-297 | "all" shows the whole catalog; another category shows exactly that category's records in catalog order |
| Catalog.SearchSpec | js/products.js:306-315 | the search shows exactly the records whose lower-cased name, category or short description contains the lower-cased input, in catalog order |
| Catalog.SearchEmpty | js/products.js:306-315 | an empty search shows the whole catalog |
| Catalog.PriceValueOfText | js/products.js:334-335 | a price written '₹' and a number compares by that number |
| Catalog.SortProducts | js/products.js:322-350 | the sorted copy is a permutation of the catalog; popularity is non-increasing, price ascending or descending as chosen; an unknown option leaves catalog order; a known one is the stable sort by its comparator |
| Catalog.SortStable | js/products.js:330-346 | products the chosen comparator ties keep their catalog order |
| Compare.IdIn | js/compare.js:101-103 | an id is selected exactly when some selected product carries it |
| Compare.WithoutIdSpec | js/compare.js:81 | removing an id drops exactly the products with that id, keeps the others in order, and leaves a selection without that id unchanged |
| Compare.ApplyKeepsInvariant | js/compare.js:61-99 | add, remove and clear each keep the selection at three products or fewer with no id twice |
| Compare.RunKeepsInvariant | js/compare.js:61-99 | any sequence of add, remove and clear keeps that invariant |
| Compare.CountTextSpec | js/compare.js:166 | the bar's count line reads "n product(s) selected", singular exactly for one, and `parseInt` reads n back |
| Compare.Chips | js/compare.js:176-186 | one chip per selected product, in selection order |
| Compare.SyncToggles | js/compare.js:189-194 | every checkbox keeps its product id and ends up checked exactly when that product is selected |
| Compare.PriceNumberOfCatalogText | js/compare.js:271 | the table reads a catalog price '₹n' as n |
| Compare.MinNum | js/compare.js:272 | `Math.min` is `NaN` exactly when some price is, and otherwise a price no larger than any other |
| Compare.MaxNum | js/compare.js:273 | `Math.max` is `NaN` exactly when some price is, and otherwise a price no smaller than any other |
| Compare.IsBestIff | js/compare.js:280 | a price is marked best exactly when it is a number, no other price is lower or `NaN`, and some price is higher |
| Compare.BestOfThree | js/compare.js:280 | for prices 89, 65 and 450 only the second is best |
| Compare.EqualPricesNotBest | js/compare.js:280 | when all prices are equal none is marked best |
| Compare.PriceTierMonotone | js/compare.js:348-352 | a higher price never falls into a cheaper tier; budget is below 150 and premium from 300 |
| Compare.PopularityStarsSpec | js/compare.js:354-358 | "N/A" exactly for a missing or zero popularity, otherwise one to five stars, the popularity clamped to that range |
| Compare.DescriptionSpec | js/compare.js:290 | the cell shows the short description when it is non-empty, otherwise exactly the first 80 characters of the full one (all of it when shorter) and "...", or "undefined..." without one, so "No description" appears only as a literal short description |
| Compare.PriceRow | js/compare.js:276-283 | the price row has one cell per selected product |
| Compare.ComparisonRows | js/compare.js:270-333 | the table has eight rows, each with one cell per selected product |
| Compare.PriceCellSpec | js/compare.js:276-283 | each price cell holds that product's price, its tier, and the best mark exactly as `IsBest` decides |
| Compare.Snapshot | js/compare.js:418-420 | a catalog record stored for comparison keeps its id and name |
| Compare.SnapshotCells | js/compare.js:271-290 | a stored catalog record shows its short description and its numeric price |
| Compare.ResolveProduct | js/compare.js:415-438 | the product found for a checkbox carries the checkbox's id; none is found exactly when neither the catalog nor the product card supplies one |
| Compare.CompareSystem.constructor | js/compare.js:14-21 | the store starts with the stored list (empty when missing or unreadable), no notices, the modal closed and the checkboxes synced |
| Compare.CompareSystem.SaveToStorage | js/compare.js:49-55 | the storage then holds the selection, unless it cannot be written, when it is left as it was |
| Compare.CompareSystem.UpdateBar | js/compare.js:161-187 | the bar shows the count text, is visible exactly when something is selected, and shows one chip per product |
| Compare.CompareSystem.UpdateToggles | js/compare.js:189-194 | each checkbox is checked exactly when its product is selected |
| Compare.CompareSystem.UpdateUI | js/compare.js:156-159 | the bar and the checkboxes both reflect the selection |
| Compare.CompareSystem.AddProduct | js/compare.js:61-77 | at capacity nothing changes and a capacity warning is raised, even for a duplicate; a duplicate below capacity changes nothing silently; otherwise the product is appended, saved and announced, and the invariant holds |
| Compare.CompareSystem.RemoveProduct | js/compare.js:79-90 | the selection loses exactly that id, is saved and synced, and a removal notice is raised only when the id was selected |
| Compare.CompareSystem.ClearAll | js/compare.js:92-99 | the selection is emptied, saved and synced, and a "cleared" notice raised |
| Compare.CompareSystem.IsProductSelected | js/compare.js:101-103 | true exactly when a selected product has that id |
| Compare.CompareSystem.GetSelectedCount | js/compare.js:105-107 | the count is the length of the selection and never exceeds three |
| Compare.CompareSystem.GetSelectedProducts | js/compare.js:465-467 | a copy of the selection, at most three products with distinct ids |
| Compare.CompareSystem.OpenModal | js/compare.js:204-218 | with nothing selected a warning is raised and the modal stays shut; otherwise the modal opens on the current table |
| Compare.CompareSystem.CloseModal | js/compare.js:220-223 | the modal is closed |
| Compare.CompareSystem.HandleToggleChange | js/compare.js:414-452 | checking adds the resolved product, saves it, syncs every checkbox and announces it, or, when the add is refused, unchecks the box, leaves storage alone and warns only at capacity; unchecking removes the id, saves, syncs and announces a removal only when the id was selected; with no product found nothing changes |
| Feedback.SavedListSpec | js/feedback.js:120-134 | a save puts the entry first, keeps the previous entries after it in order, and caps the list at 50 |
| Feedback.SaveManyBounded | js/feedback.js:120-134 | any number of saves keeps at most 50 entries, the last one saved first |
| Feedback.SliceEnd | js/feedback.js:146-149 | the end of `slice(0, count)` never passes the list's length |
| Feedback.FeedbackStore.constructor | js/feedback.js:109-118 | the store reads the given storage slot |
| Feedback.FeedbackStore.GetAll | js/feedback.js:110-118 | the stored list, or empty when nothing readable is stored |
| Feedback.FeedbackStore.Save | js/feedback.js:120-134 | reports success exactly when storage is writable, and then stores the saved list |
| Feedback.FeedbackStore.Clear | js/feedback.js:136-144 | reports success exactly when storage is writable, and then nothing is stored |
| Feedback.FeedbackStore.GetLatest | js/feedback.js:146-149 | the first `count` stored entries, with JavaScript's slice rules for a negative count |
| Feedback.GetLatestSpec | js/feedback.js:146-149 | a non-negative count gives the first min(count, length) entries; the default gives at most six |
| Feedback.SaveThenLatest | js/feedback.js:120-149 | right after a save the latest entry shown first is the one just saved |
| Feedback.StarRating.constructor | js/feedback.js:23-70 | five stars, none active or hovered, rating 0 |
| Feedback.StarRating.HighlightStars | js/feedback.js:81-91 | star i is active exactly when i is below the count, and hovered otherwise |
| Feedback.StarRating.SetRating | js/feedback.js:72-79 | the rating is stored, exactly the first r stars are active and the rest take the hover style |
| Feedback.StarRating.MouseLeave | js/feedback.js:67-69 | leaving the widget shows the stored rating again: the first `rating` stars active, the rest hovered |
| Feedback.StarRating.Reset | js/feedback.js:97-102 | the rating is 0 and no star is active or hovered |
| Feedback.ValidateSpec | js/feedback.js:212-243 | the form is accepted exactly when the trimmed name has two characters, a rating is chosen and the trimmed message has 10 to 250 characters; each refusal holds exactly when every earlier check passes and its own check fails |
| Feedback.CounterSpec | js/feedback.js:202-209 | the counter text starts with the length, which `parseInt` reads back, and turns red exactly above 230 characters |
| Feedback.FeedbackForm.constructor | js/feedback.js:157-177 | the form starts empty, unrated, with a "0/250" counter and no errors |
| Feedback.FeedbackForm.UpdateCharCounter | js/feedback.js:202-209 | the counter shows the message length and is red exactly above 230 |
| Feedback.FeedbackForm.TypeMessage | js/feedback.js:187-190 | typing stores the text and refreshes the counter |
| Feedback.FeedbackForm.ClickStar | js/feedback.js:45-48 | clicking star r sets the form's rating to r, lights the first r stars and gives the rest the hover style |
| Feedback.FeedbackForm.HandleSubmit | js/feedback.js:269-307 | a refused form shows the first failing check's message and changes nothing else: no save, and the boxes, rating, stars and counter stay; an accepted one saves the trimmed entry first in the store, then thanks the user, clears the errors, empties the boxes and unmarks every star, or reports a failed save with the errors cleared and everything else kept |
| Feedback.FeedbackForm.ShowRefusal | js/feedback.js:212-243 | a refusal raises its message and marks the name or message box it concerns |
| Feedback.FeedbackForm.SaveEntry | js/feedback.js:287-306 | the entry is saved first in the store when storage is writable, followed by a thank-you and a reset, and otherwise by a failure notice |
| Feedback.FeedbackForm.ResetForm | js/feedback.js:309-318 | name, message and rating are cleared, no star is lit, errors are gone and the counter reads 0 |
| Feedback.FilledStars | js/feedback.js:386-389 | five flags; star i (from 1) is filled exactly when i is at most the rating |
| Feedback.RenderStars | js/feedback.js:383-393 | the loop builds exactly the display for the filled flags of the rating |
| Feedback.StarsHtmlInjective | js/feedback.js:383-393 | different fill patterns never render the same markup, so the markup determines which stars are filled |
| Feedback.FilledStarsCount | js/feedback.js:383-393 | the display fills as many stars as the rating clamped to 0 to 5 |
| Contact.ValidateEmailSpec | js/contact.js:224-227 | an address passes exactly when it has the address shape |
| Contact.ValidatePhoneSpec | js/contact.js:230-237 | a phone number passes exactly when it holds only digits, white space, '-', '(', ')' and '+', every character ahead of a '+' is a separator, and it has at least ten digits; so a passing number has at most one '+' and no digit ahead of it |
| Contact.FilterPhoneInputSpec | js/contact.js:316-321 | the phone box keeps exactly its phone characters, in order, and filtering again changes nothing |
| Contact.SubmitContactForm | js/contact.js:19-79 | each failing box gets its own error in form order; the trimmed values are submitted exactly when all four boxes pass |
| Contact.SubmitErrorSpec | js/contact.js:22-70 | on submit an e-mail passes exactly when the raw value has the address shape, a name when it trims to two characters, a message when it trims to ten; a phone passes exactly when it is not blank and has the phone shape of `Contact.ValidatePhoneSpec` |
| Contact.ValidateField | js/contact.js:102-150 | a box passes exactly when it shows no error, and a box with an unknown id always passes |
| Contact.ValidateFieldSpec | js/contact.js:102-150 | on focus loss the trimmed value decides: a name passes with two characters, a message with ten, an e-mail exactly when it has the address shape, a phone number exactly when it has the phone shape |
| Contact.FieldChecksAgree | js/contact.js:22-150 | focus loss and submit give a blank box the same error, and the same verdict for the name and message boxes |
| Contact.PaddedEmailRefusedOnlyOnSubmit | js/contact.js:37-104 | " a@b.co" passes when the box loses focus but is refused on submit |
| Contact.SubscribeNewsletter | js/contact.js:260-280 | without a box nothing happens; otherwise success exactly for a valid trimmed address, which empties the box, and an error that leaves the box alone otherwise |
| Site.NextIndex | js/main.js:169-172 | the next slide is the following one, wrapping from the last to the first, and always in range |
| Site.PrevIndex | js/main.js:174-177 | the previous slide is the one before, wrapping from the first to the last, and always in range |
| Site.PrevUndoesNext | js/main.js:169-177 | previous undoes next and next undoes previous |
| Site.ForwardWraps | js/main.js:169-172 | k steps forward count up and wrap past the last slide once |
| Site.FullCircle | js/main.js:169-172 | n steps forward return to the starting slide |
| Site.MoveActive | js/main.js:155-167 | the mark moves to the target; if only the old slide was marked, only the target is |
| Site.Slider.constructor | js/main.js:135-153 | the slides as the page gives them, one dot per slide with the first active, slide 0 current |
| Site.Slider.GoToSlide | js/main.js:155-167 | the target becomes current and the active mark on slides and dots moves to it; the dots keep exactly one active |
| Site.Slider.NextSlide | js/main.js:169-172 | moves to the next index, wrapping to 0; the active mark moves on the slides and on the dots, which are left unchanged when there are none; a single active slide stays single |
| Site.Slider.PrevSlide | js/main.js:174-177 | moves to the previous index, wrapping to the last; the active mark moves on the slides and on the dots, which are left unchanged when there are none; a single active slide stays single |
| Site.AfterClickSpec | js/main.js:225-247 | after a click at most one item is open: the clicked one, exactly when it was closed |
| Site.Accordion.Click | js/main.js:225-247 | a click on an item with a handler closes every other item and toggles it; an item without one ignores the click |
| Site.LastSegment | js/main.js:79 | the text after the last '/' of the path, which holds no '/' |
| Site.CurrentPage | js/main.js:79 | the last segment of the path, or "index.html" when that is empty; never empty |
| Site.LastSegmentOfPage | js/main.js:79 | after a directory path ending in '/' (or none), the last segment of a page name without '/' is that page name |
| Site.CurrentPageOfSite | js/main.js:79 | a path ending in a page name names that page; a path ending in '/' names "index.html" |
| Site.HighlightActiveLink | js/main.js:78-88 | every link whose href is the current page becomes active and no link loses its mark |
| Site.EmailValidatorsAgree | js/main.js:441-444 | the site-wide and contact-page e-mail validators accept the same addresses |
| Site.ContactPhoneAccepted | js/main.js:446-449 | every phone number the contact page accepts passes the site-wide check |
| Site.TenParenthesesOnlyHere | js/main.js:446-449 | ten '(' pass the site-wide phone check but not the contact page's |

## Left out

- `js/effects.js` and `js/premium.js`: visual effects and the toast component; toasts are modelled only as the notices the core raises.
- DOM rendering: markup, CSS classes, inline styles, focus handling, `maxHeight` of FAQ answers, badge class slugs and the product grid; the model keeps the state those reflect.
- JSON serialisation: storage holds lists of records; text that `JSON.parse` rejects, and a `NaN` id turning into `null`, are folded into the unreadable slot.
- Timers: slider autoplay, toast timeouts, the simulated contact submission delay and card hover effects.
- The clock: the feedback id and dates are parameters of `Feedback.FeedbackForm.HandleSubmit`.
- WhatsApp links, `window.open`, the clipboard, quick-contact buttons, `addToInquiry`, the map stub, the mobile menu and smooth scrolling: browser side effects with no state the core reads.
- `FeedbackDisplay.render`, its empty state and `escapeHtml`: only `renderStars` is modelled.
- `alert` and `console` fallbacks when the toast component is missing: the model always raises the notice.
- `toLowerCase` beyond ASCII, and text lengths: strings are sequences of characters, while JavaScript counts UTF-16 code units (the 250-character limit, `substring(0, 80)`).
- `parseInt` beyond plain decimal text with an optional sign (hexadecimal prefixes, exponents), and `parseFloat`'s fractional part: prices keep their whole-number part, so "₹.5" reads as 0 rather than 0.5. No catalog price has a fractional part.
- Catalog.SortProducts: the "name" option, sorted with `localeCompare`, is not modelled; a locale collation has no definition here.
- Catalog.Rank: a price that `parseInt` cannot read compares as 0 rather than as a `NaN` comparator result; every catalog price reads as a number (`Catalog.CatalogPriceAt`).
- Catalog.OpenProductModal: the early return when the page has no `#productModal` element is not modelled, and `Catalog.CloseProductModal` drops the shown id where the page keeps its `data-product-id` attribute; nothing in the core reads either.
- Compare.ResolveProduct: the fallback that scrapes a product from its card is a parameter; which fields it reads from the page is not modelled.
- Compare.CompareSystem.constructor: a stored list changed outside the store, holding more than three products or repeated ids, is not modelled; the constructor requires a stored list that keeps the selection invariant, which every list the store itself writes does.
- Compare.CompareSystem.HandleToggleChange: checkbox ids are integers; a `data-product-id` that `parseInt` cannot read is not modelled.
- Contact.SubscribeNewsletter: the page's lookup of the e-mail box is the `None` case; nothing else about the page is modelled.
- Site.Slider.constructor: a page without slides returns early and has no slider; a dot container whose children do not match the slides is not modelled.
- `resetCompare` calls `clearAll` and is covered by `Compare.CompareSystem.ClearAll`.
