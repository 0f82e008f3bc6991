# Violet Essentials storefront: a Dafny model

This project models the logic of a small React storefront. Prices are
`int`s, and events are inputs to pure transition functions.

- **Listing page** (`App.tsx`): the catalogue held in state and the filter
  state, with its initial and cleared values and the sort menu. It also
  covers the derived view shown in the grid. That view keeps the selected
  categories (an empty selection keeps everything), then keeps prices at or
  below the ceiling, then sorts. The three comparators are all of the form
  `key(a) - key(b)`, so `Array.prototype.sort` (which is stable) orders by
  ascending key and keeps ties in input order. `Sorting.SortBy` is such a
  sort, and `Sorting.StableSortIsUnique` shows that every sorted, stable
  arrangement equals it.
- **Filter sidebar** (`components/FilterSidebar.tsx`): the category check
  boxes, the price slider (0 to 5000 in steps of 100) and the collapsible
  sections.
- **Listing form** (`components/AddProductModal.tsx`): the image upload,
  the submit guard, the disabled predicate, and the product handed to the
  page. The clock reading and the numeric value of the price text are
  parameters.
- **Quick view** (`components/QuickViewModal.tsx`): size selection,
  add-to-bag, the delayed auto-close and dismissal. The 1.5-second callback
  is a `TimerFires` event. The page's product slot is modelled too, so a
  dialog that is opened later can be told apart from the one that
  scheduled the callback.
- **Stylist chat** (`components/AIStylist.tsx`): the panel, the lazily
  created session, the input box, the loading flag and the message log.
  The reply to a send is a later `Reply` event that carries the call's
  outcome. The page passes the *filtered* view as the panel's products
  (`App.tsx:147`). The session is identified by the snapshot it was
  created from.
- **Stylist service** (`services/geminiService.ts`): the one-line-per-product
  catalogue context and the instruction text built around it. It also maps
  a call outcome (text, missing text, or failure) to the text shown.

Modules: `Types` holds the records of `types.ts`. `Seqs` has an
order-preserving filter. `Text` has join/split, decimal rendering and
JavaScript `trim`. Then come `Sorting`, `Catalog`, `Sidebar`, `Intake`,
`QuickView`, `StylistService` and `Stylist`.

## Model

| member | source | states |
|---|---|---|
| Catalog.ClearAll | App.tsx:134 | "Clear all filters" yields exactly the page's initial filter state (no categories, ceiling 5000, newest) |
| Catalog.SelectSort | App.tsx:95-112 | A sort-menu entry sets the ordering and leaves categories, minimum and ceiling unchanged |
| Catalog.CompareIsKeyDifference | App.tsx:39-47 | Each mode's comparator is the difference of a key (price, negated price, 0 for new / 1 otherwise), so it orders by ascending key |
| Catalog.FilteredProducts | App.tsx:28-50 | The view is no longer than the catalogue. Every item in it comes from the catalogue, is priced at or below the ceiling, and belongs to a selected category when any is selected |
| Catalog.StepsSelect | App.tsx:31-37 | The category step followed by the price step keeps exactly the catalogue items that meet both criteria, in catalogue order |
| Catalog.ViewIsSortedSelection | App.tsx:28-50 | The view is the passing items sorted stably by the mode's key |
| Catalog.ViewStable | App.tsx:39-47 | Every group of equal-key items appears in the view in catalogue order |
| Catalog.ViewMembers | App.tsx:29-37 | Every item in the view is a catalogue item that passes the filters. Each passing item appears exactly as often as in the catalogue, and a failing item never appears |
| Catalog.ViewCategories | App.tsx:32-34 | A non-empty selection admits only its categories. With an empty selection each item under the ceiling appears exactly as often as in the catalogue, and no other item appears |
| Catalog.ViewIgnoresMinPrice | App.tsx:28-50 | Changing only the minimum price leaves the view identical |
| Catalog.PriceAscOrder | App.tsx:40-41 | Price low to high: prices never decrease, and equal-priced items keep catalogue order |
| Catalog.PriceDescOrder | App.tsx:42-43 | Price high to low: prices never increase, and equal-priced items keep catalogue order |
| Catalog.NewestIsStablePartition | App.tsx:44-47 | Newest: the view is the new items in catalogue order followed by the others in catalogue order (a missing flag counts as not new) |
| Catalog.NewestPutsNewFirst | App.tsx:44-47 | Newest: every new item precedes every item that is not new, whatever the prices |
| Catalog.ViewIdempotent | App.tsx:28-50 | Applying the view to its own result with the same filters changes nothing |
| Catalog.SelectSortKeepsItems | App.tsx:95-112 | Switching the sort mode changes only the order of the view, never the multiset of items |
| Catalog.ExampleOrder | App.tsx:28-50 | Worked example: an older item at 100 and a new one at 50 show new-first for newest and low-to-high, and older-first for high-to-low |
| Catalog.ExampleCeiling | App.tsx:36-37 | Worked example: with ceiling 40 neither item is shown |
| Catalog.AddProduct | App.tsx:52-54 | Adding puts the product in front: one longer, with the old catalogue as the unchanged suffix |
| Catalog.AddProductView | App.tsx:52-54 | After adding, the view holds its former items plus the new product exactly when the product passes the filters |
| Catalog.NewListingShownFirst | App.tsx:44-54 | Under newest, a new listing that passes the filters is shown first |
| Catalog.AddProductKeepsIdsUnique | App.tsx:52-54 | A product whose id exceeds all present ids (a later clock reading) keeps ids pairwise distinct |
| Sorting.SortBySorted | App.tsx:39-47 | The sort's output has non-decreasing keys |
| Sorting.SortByStable | App.tsx:39-47 | The sort keeps every equal-key group in input order |
| Sorting.StableSortIsUnique | App.tsx:39-47 | Two sorted sequences with the same equal-key groups are equal, so any stable sort gives the same result |
| Sorting.StableSortCharacterization | App.tsx:39-47 | Any sorted arrangement that keeps each input group in order is exactly the sort's output |
| Sorting.SortTwoKeysIsPartition | App.tsx:44-47 | With keys in {0, 1}, sorting is the key-0 items in order followed by the key-1 items in order |
| Sidebar.Toggle | components/FilterSidebar.tsx:23-25 | After toggling `c`, `c` is listed iff it was not before. Other listed categories stay listed, and nothing else is added |
| Sidebar.ToggleKeepsOthersInOrder | components/FilterSidebar.tsx:23-25 | Toggling leaves the other categories in their relative order, and an absent category is appended at the end |
| Sidebar.ToggleKeepsNoDuplicates | components/FilterSidebar.tsx:23-25 | A list without duplicates stays without duplicates |
| Sidebar.ToggleTwiceRestores | components/FilterSidebar.tsx:23-25 | Toggling an absent category twice restores the list exactly |
| Sidebar.UntoggleRetoggleMovesToEnd | components/FilterSidebar.tsx:23-25 | Unchecking and re-checking a listed category moves it to the end (all its copies removed) |
| Sidebar.ChangeCategory | components/FilterSidebar.tsx:21-28 | The category handler replaces the list by its toggle, so `c` flips membership and the others are kept. Minimum, ceiling and sort are unchanged |
| Sidebar.SliderValue | components/FilterSidebar.tsx:73-79 | Every slider position reports a value in 0..5000 on the 100 grid |
| Sidebar.SliderValuesAreSteps | components/FilterSidebar.tsx:75-77 | The slider's values are exactly the multiples of 100 from 0 to 5000 |
| Sidebar.MoveSlider | components/FilterSidebar.tsx:79 | Moving the slider sets the ceiling to the value the slider reports at that position and changes nothing else |
| Sidebar.SliderTopIsInitialCeiling | components/FilterSidebar.tsx:76 | The slider's top equals the page's initial ceiling |
| Sidebar.AboveSliderTopNeverShown | components/FilterSidebar.tsx:73-79 | With a ceiling no higher than the slider's top, an item priced above 5000 never appears in the view |
| Sidebar.ToggleSection | components/FilterSidebar.tsx:17-19 | The named flag flips (a missing flag reads as closed) and every other flag is copied |
| Sidebar.ToggleSectionTwice | components/FilterSidebar.tsx:17-19 | Toggling a present section twice restores the flags |
| Sidebar.BothSectionsStartOpen | components/FilterSidebar.tsx:12-15 | Both sections start open |
| Intake.InitialForm | components/AddProductModal.tsx:12-16 | The form opens with empty name, brand and price, no image and the first category selected, and cannot be submitted |
| Intake.UploadImage | components/AddProductModal.tsx:19-25 | No file leaves the form unchanged; a file sets the image to its URL; the text fields are untouched either way |
| Intake.SubmitDisabled | components/AddProductModal.tsx:144 | The submit button is disabled exactly when the guard fails, that is exactly when submitting emits nothing |
| Intake.DisabledIffGuardFails | components/AddProductModal.tsx:144 | The submit button is disabled exactly when the guard at line 29 would return early |
| Intake.NewProduct | components/AddProductModal.tsx:31-39 | The product copies name, brand, category and image, takes the clock as id and the parsed price, is flagged new, and has no sale flag or original price |
| Intake.Submit | components/AddProductModal.tsx:27-43 | A failing guard emits nothing; a passing one emits exactly one add of that product, then a close |
| Intake.SubmitEffectOnPage | components/AddProductModal.tsx:41-42 | On the page, a failing submit leaves the catalogue and the form as they were. A passing one prepends one new product at the parsed price and closes the form |
| QuickView.Mount | components/QuickViewModal.tsx:11-12 | A dialog mounts with no size selected and no confirmation |
| QuickView.AddToCartStep | components/QuickViewModal.tsx:16-23 | Without a size, add-to-bag changes nothing and schedules nothing. With one, it sets the confirmation and schedules exactly one callback for this dialog |
| QuickView.TimerStep | components/QuickViewModal.tsx:19-22 | The oldest pending callback runs and closes whatever dialog is showing |
| QuickView.Step | components/QuickViewModal.tsx:16-44 | Each event schedules at most one callback (for the dialog showing), consumes the oldest, or leaves the callbacks alone. A showing dialog never changes product. A dialog appears only by showing a product, freshly mounted |
| QuickView.AddEnabled | components/QuickViewModal.tsx:109 | The add button is enabled exactly when one of the five size buttons has been chosen |
| QuickView.SelectSizeKeepsConfirmation | components/QuickViewModal.tsx:81-84 | Choosing a size records one of XS..XL and leaves the confirmation as it was |
| QuickView.AddEnabledIffAddActs | components/QuickViewModal.tsx:109 | The add button is enabled exactly when pressing it changes the state |
| QuickView.DismissAlwaysCloses | components/QuickViewModal.tsx:31-44 | Backdrop and close button close the dialog from any state and leave pending callbacks pending |
| QuickView.StaleTimerClosesLaterDialog | components/QuickViewModal.tsx:19-22 | As written: add, dismiss, open another product, and the first dialog's callback closes the second |
| QuickView.CancellingKeepsTimersOwned | components/QuickViewModal.tsx:19-22 | With cancel-on-close, every pending callback belongs to the dialog now showing |
| QuickView.CancellingTimerClosesOwnDialog | components/QuickViewModal.tsx:19-22 | With cancel-on-close, a firing callback closes only the dialog that scheduled it |
| StylistService.ProductLine | services/geminiService.ts:10 | A line starts with "- ", and has no line break when the product's text fields have none |
| StylistService.ProductContext | services/geminiService.ts:9-11 | The context is empty exactly when the snapshot is, and otherwise starts with the first product's line marker |
| StylistService.ProductLines | services/geminiService.ts:9-11 | One line per product, in snapshot order |
| StylistService.ContextHasOneLinePerProduct | services/geminiService.ts:9-11 | The empty snapshot gives the empty context. Otherwise splitting the context at line breaks gives back exactly the product lines in order, so there is no trailing line break |
| StylistService.ProductLinePrice | services/geminiService.ts:10 | A line is the name/brand prefix, the price's decimal digits and the category suffix; the digits parse back to the price |
| StylistService.CreateStylistChat | services/geminiService.ts:8-34 | The chat uses the fixed model and its instruction holds the context verbatim right after the fixed head |
| StylistService.InstructionDeterminesContext | services/geminiService.ts:13-26 | Equal instructions come from equal contexts |
| StylistService.ReplyText | services/geminiService.ts:36-44 | Non-empty reply text is returned unchanged, missing or empty text gives the "fashion moment" text, and failure gives the "trouble connecting" text. The result is never empty |
| StylistService.ReplyIsModelTextIff | services/geminiService.ts:38-39 | When the model's text differs from both fallbacks, the user sees a non-fallback text iff the call returned non-empty text |
| Stylist.Initial | components/AIStylist.tsx:12-17 | The panel starts closed, not loading, with no session, an empty input and a log of exactly the model's greeting |
| Stylist.SyncSession | components/AIStylist.tsx:21-26 | After the effect an open panel has a session, and an existing session is never touched |
| Stylist.HandleSend | components/AIStylist.tsx:32-38 | The handler acts exactly when the input is not blank and a session exists. It then logs the untrimmed input as one user message, clears the box, sets loading and adds one pending reply. It never touches the session, the panel or the snapshot |
| Stylist.SendDisabled | components/AIStylist.tsx:118 | The send button is disabled exactly when the input is all white space or a reply is awaited |
| Stylist.React | components/AIStylist.tsx:32-48 | No event handler touches the session, and the log only grows at its end, by at most one message |
| Stylist.Step | components/AIStylist.tsx:21-48 | After the effect the log has only grown at its end, by at most one message. An existing session is kept, and an open panel has a session |
| Stylist.SessionCreatedOnceOnOpen | components/AIStylist.tsx:21-26 | A session appears only on an open panel without one, from the current snapshot, and once present it is never replaced |
| Stylist.LaterProductsIgnored | components/AIStylist.tsx:21-26 | A new product list does not reach an existing session |
| Stylist.HandleSendEffect | components/AIStylist.tsx:32-38 | A blank input or missing session changes nothing. Otherwise the untrimmed input is logged as one user message, the box is cleared, loading is set and one reply is pending |
| Stylist.SendAcceptedIffNotBlank | components/AIStylist.tsx:33 | With a session, a send is accepted iff the input is not all JavaScript whitespace |
| Stylist.EnterRunsHandleSend | components/AIStylist.tsx:46-48 | Enter runs the send handler with no further check |
| Stylist.EnterKeyIgnoresLoading | components/AIStylist.tsx:46-48 | While loading, the button does nothing but Enter still sends |
| Stylist.EnterSendsTwoAtOnce | components/AIStylist.tsx:46-48 | As written: two messages sent with Enter in quick succession are both in flight |
| Stylist.FirstReplyHidesLoading | components/AIStylist.tsx:42 | With two replies outstanding, the first to arrive clears loading while another is still pending |
| Stylist.ReplyEffect | components/AIStylist.tsx:40-43 | A reply clears loading, consumes one pending send and appends exactly one model message with the service's text |
| Stylist.InitialValid | components/AIStylist.tsx:12-17 | The initial state satisfies the log invariant |
| Stylist.StepKeepsValid | components/AIStylist.tsx:21-48 | Every event keeps the greeting first and an open panel with a session. Users never outnumber replies plus pending, and the log grows only at its end, by at most one message |
| Stylist.RunKeepsValid | components/AIStylist.tsx:32-44 | Over any event sequence the old log stays a prefix, and user messages are at most model messages plus pending sends minus one |
| Stylist.GuardedKeepsOneInFlight | components/AIStylist.tsx:116-118 | With Enter obeying the button's guard, at most one reply is pending and loading shows exactly while it is |
| Text.SplitJoin | services/geminiService.ts:11 | Splitting lines joined by a separator they do not contain gives the lines back |
| Text.IntToDecimalRoundTrip | services/geminiService.ts:10 | The decimal rendering of a price parses back to the price |
| Text.TrimEmptyIffBlank | components/AIStylist.tsx:33 | Trimming gives the empty string iff the input is all JavaScript whitespace |

## Left out

- Markup, CSS classes, scrolling and the presentational components (header, footer, hero, product card): they hold no logic.
- The Gemini SDK, the API key and the network. A chat call is represented only by its settled outcome, and the remote conversation history is not modelled.
- `URL.createObjectURL`, file inputs and `Date.now()` are browser I/O and clock reads. The file's URL and the clock reading are parameters.
- `Number(price)` and floating-point prices: prices are integers, and the parsed price is a parameter of `Intake.NewProduct` and `Intake.Submit`.
- `setTimeout` timing: a pending callback runs at a `TimerFires` event, oldest first. Real time and the async interleaving of the chat call are abstracted to event order.
- `console.error` logging of a failed chat call: it affects nothing the user sees.
- `constants.ts` (the initial catalogue and the category list) is not part of this model. Both are parameters, and the category list is required to be non-empty in `Intake.InitialForm`.
- The form's text-field setters: each only replaces one field of `Intake.Form`.
- Opening a quick view while one is showing: the dialog's backdrop covers the page, so `QuickView.Step` ignores `ShowProduct` while a dialog is mounted.
- Sizes are an enumeration rather than strings; the empty string is `None`.
- Stylist.Config: states only the model name. The instruction text is stated by `StylistService.CreateStylistChat`.
- Catalog.AddProductKeepsIdsUnique: assumes the clock reading exceeds every present id. `Date.now()` does not guarantee that for quick successive submissions.

In two places the code does not do what it evidently intends. The
quick-view callback is not cancelled on close, and the Enter key does not
check the loading flag. The model follows the code; both are listed below.

## Findings

| source | as written | input that shows it | evidently intended | confidence | as-written member | corrected member |
|---|---|---|---|---|---|---|
| components/QuickViewModal.tsx:19-22 | The auto-close callback is never cancelled. It runs `onClose` even after the dialog that scheduled it was dismissed | Select a size, add to bag, dismiss, open another product within 1.5 s: the second dialog closes | Closing the dialog cancels its pending callback, so a callback only ever closes its own dialog | not executed | QuickView.StaleTimerClosesLaterDialog | QuickView.CancellingTimerClosesOwnDialog |
| components/AIStylist.tsx:46-48 | Enter calls `handleSend` without the loading check that disables the button | Type "a", press Enter, type "b", press Enter before the reply: two sends are in flight, and the first reply clears the loading indicator | Enter obeys the button's guard, so at most one send is outstanding | not executed | Stylist.EnterSendsTwoAtOnce | Stylist.GuardedKeepsOneInFlight |
