# Chat categories content script, modelled in Dafny

The content script `content.js` lets a user file each ChatGPT conversation under a category
(`Design`, `Dev`, `Oth..`). It injects a filter-tab bar (`All, Design, Dev, Oth..`) into the
sidebar's nav element. It adds a category picker to the compose form and refuses to send
without a category. It remembers the category of each conversation in the map
`chatCategories` (title to category) and mirrors that map in extension storage. It shows or
hides sidebar entries by category and appends a category badge to each entry.

The model replaces the DOM by plain records:

- a sidebar entry (`nav a.flex`) is an `Entry`: its whole text content, its `style.display`
  and its optional badge. The text content includes the badge's text once one is appended,
  as in the browser;
- the `.category-tab` buttons are an array of `Tab` records, and the nav element is the
  sequence of its children (the injected tab bar or a host node);
- the compose form is a `ComposeForm` object (select value, textarea value, send button
  state, whether a page `onsubmit` existed, accepted submissions whose delayed store is pending);
- `chatCategories` and its stored copy are the fields of a `Store` object;
- a `document.querySelector` polled by `waitForElement` is a function from attempt number to
  "found / not found".

Modules, one per component:

- `Watcher` (watcher.dfy): `waitForElement` as a loop over the attempt counter, proved
  against the reference definition `FirstFound`.
- `CategoryStore` (category_store.dfy): the map, its hydration from storage, the key a
  submission is filed under, and the write of one entry plus the storage mirror.
- `Composer` (composer.dfy): `trim`, the send-button predicate, the wrapped `onsubmit`, and the
  delayed store it schedules.
- `Sidebar` (sidebar.dfy): `filterChats`, `addCategoryLabels`, `createCategoryTabs`, the guard of
  `addCategoryDropdown`, and `setupExtension`.

A consequence of the source's keying is stated and proved (`Sidebar.LabelledEntryHiddenByItsCategory`).
`filterChats` and `addCategoryLabels` look an entry up by its whole `textContent`, and
`addCategoryLabels` appends the badge inside the entry. So an entry that has been badged with
category `c` no longer matches its title. Filtering by `c` then hides it, unless its new text
happens to be a key filed under `c`. The model keeps this keying exactly as written.

## Model

| member | source | states |
|---|---|---|
| Watcher.Budget | content.js:9-16 | the number of polls is max(1, maxAttempts): at least one, and never fewer than maxAttempts |
| Watcher.FirstFound | content.js:8-19 | reference definition: the element of the first successful poll within the budget, with every earlier poll empty; none only when every poll in the budget is empty |
| Watcher.WaitForElement | content.js:5-20 | between 1 and max(1, maxAttempts) polls; the callback runs at most once, only with the first element found, and no poll follows it; when nothing is found the whole budget is polled; the calls equal those the reference definition predicts |
| Watcher.FirstFoundIsFirstHit | content.js:12-13 | if poll k is the first to find something within the budget, its element is the one found |
| CategoryStore.Hydrate | content.js:145 | the hydrated map is the stored record, or the empty map when storage holds none |
| CategoryStore.TitleKey | content.js:96 | the key is never empty: the heading's text when there is a non-empty heading, otherwise "New Chat" |
| CategoryStore.Store.constructor | content.js:2 | before storage answers, the map is empty |
| CategoryStore.Store.Initialize | content.js:143-147 | after the storage read the map is the stored record, or empty when there is none |
| CategoryStore.Store.Record | content.js:97-98 | the title gains the category, every other title keeps its entry (present, absent and value unchanged), and storage then holds the whole map |
| CategoryStore.RecordThenHydrate | content.js:97-98 | a later load that hydrates from the stored copy finds the recorded category under the title and every other title as before |
| Composer.TrimStart | content.js:70 | the result is the suffix of the text after its leading whitespace: everything removed is whitespace and the result does not start with whitespace |
| Composer.TrimEnd | content.js:70 | the result is the prefix of the text before its trailing whitespace: everything removed is whitespace and the result does not end with whitespace |
| Composer.TrimEmptyIffBlank | content.js:70-72 | the trimmed text is empty if and only if every character of the text is whitespace |
| Composer.SendDisabled | content.js:72 | the send button is disabled if and only if no category is selected or the compose text is all whitespace |
| Composer.SendButtonExamples | content.js:69-73 | select "Dev" with empty or blank text disables; with "hello" enables; no selection disables |
| Composer.SubmitGate | content.js:81-100 | blocked exactly when nothing is selected; cancelled exactly when a category is selected and the page's handler returns false; accepted otherwise; the page's handler runs exactly when a category is selected and a handler exists (never on a blocked submission) |
| Composer.ComposeForm.constructor | content.js:54-67 | the select starts on its empty placeholder; the send button keeps the page's state; no store is pending |
| Composer.ComposeForm.UpdateSendButton | content.js:69-74 | with a send button, disabled becomes "no category or blank text"; without one, nothing changes |
| Composer.ComposeForm.OnSelectChange | content.js:76 | picking a category sets the select and recomputes the button, which is then disabled exactly when the text is blank |
| Composer.ComposeForm.OnInput | content.js:77 | typing sets the text and recomputes the button from the selection and the new text |
| Composer.ComposeForm.Submit | content.js:80-100 | the outcome is the gate's decision; a store is scheduled only on an accepted submission, so a blocked or cancelled one leaves the category map unchanged |
| Composer.ComposeForm.CompleteStore | content.js:95-99 | the delayed store files the heading's title (or "New Chat") under the category selected at that moment, which is always one of Design, Dev, Oth..; every other key is unchanged; storage holds the new map |
| Sidebar.Filtered | content.js:107-117 | the same entries with the same text and badge; an entry is displayed if and only if the filter is "All" or the category stored under its text equals the filter, and hidden otherwise |
| Sidebar.Labelled | content.js:127-138 | an entry with a badge, or without a non-empty stored category, is unchanged; any other entry gains exactly one badge holding its stored category, whose text is appended to the entry's text |
| Sidebar.DefaultTabs | content.js:30-36 | the built bar holds the four tabs All, Design, Dev, Oth.. in that order, with only All active |
| Sidebar.Toggled | content.js:119-121 | tabs keep their labels; a tab is active if and only if its label equals the filter |
| Sidebar.LabelledIdempotent | content.js:128 | running the annotator twice gives the same entries as running it once |
| Sidebar.FilterAllShowsEvery | content.js:112 | filtering by "All" displays every entry whatever is stored |
| Sidebar.FilterAfterRecord | content.js:109-116 | once an entry's text is filed under c, filtering by c displays it and filtering by any other value except "All" hides it |
| Sidebar.LabelledEntryHiddenByItsCategory | content.js:109-137 | an entry displayed by the filter for its stored category is hidden by that same filter once the annotator has badged it, unless its new text is itself filed under that category |
| Sidebar.TabLabelsDistinct | content.js:30 | the four tab labels are pairwise distinct |
| Sidebar.ToggledActiveTab | content.js:119-121 | on the built bar, at most one tab is active after filtering, and one is active exactly when the filter is one of the four labels |
| Sidebar.ScenarioTripAndBugFix | content.js:106-139 | with entries "Trip planning" and "Bug fix" and only "Bug fix" filed under Dev, filtering by Dev displays only "Bug fix", and the annotator badges only "Bug fix", with Dev |
| Sidebar.Document.FilterChats | content.js:106-122 | every entry is displayed or hidden by the filter rule and nothing else about the entries changes; every tab becomes active exactly when its label is the filter; the tab bar stays well formed |
| Sidebar.Document.ClickTab | content.js:34 | clicking a tab filters by its own label and leaves exactly that tab active |
| Sidebar.Document.AddCategoryLabels | content.js:125-140 | the entries become exactly the annotator's result on the old entries |
| Sidebar.Document.InsertCategoryTabs | content.js:24-39 | with a bar already in the nav nothing changes; otherwise the four default tabs are built and the bar becomes the nav's first child, the rest of the nav unchanged; there is never more than one bar |
| Sidebar.Document.CreateCategoryTabs | content.js:23-40 | the nav is found exactly when one of the first ten polls finds it; then the tab bar is inserted as above, otherwise nothing changes |
| Sidebar.Document.AddCategoryDropdown | content.js:43-65 | the picker is added only when the textarea is found, no picker exists yet and the textarea has a parent; its form handlers are bound only when, in addition, the textarea is inside a form |
| Sidebar.Document.SetupExtension | content.js:151-155 | after one setup pass there is at most one tab bar (built only if absent and the nav was found), the picker exists as the guard decides, and the entries are the annotator's result |

## Left out

- The `MutationObserver` (content.js:158-165) that re-runs `setupExtension` on every DOM change is not modelled. Re-running is safe because of the idempotence lemmas and guards above.
- `chrome.storage.local.get` and `set` are modelled by the value they read or write (`Store.persisted`). Their asynchrony and failures are not modelled.
- The 1000 ms poll interval and the 500 ms delay before the category is stored are not modelled. The delayed store is a separate later step (`ComposeForm.CompleteStore`), and the count of pending stores is kept.
- `alert`, `preventDefault` and `stopPropagation` are folded into the `Blocked` outcome.
- CSS selector matching, `innerHTML`, `parentElement`, `closest` and `classList` are abstracted to "found / not found" and to record fields. The tab-bar guard looks at the nav's children rather than all its descendants.
- `Composer.IsSpace` lists the ECMAScript white-space and line-terminator code points, with the space separators of current Unicode. Later Unicode versions are not followed.
- JavaScript property-lookup quirks of `chatCategories[title]` (inherited keys such as `toString`) are not modelled. A lookup finds only keys stored in the map.
- `Sidebar.Document.AddCategoryDropdown`: the DOM construction of the picker (the `<select>` markup) is not modelled. Its bound form is the separate `ComposeForm`.
- The host page's own re-rendering (entries replaced, nav rebuilt, select reset) is not modelled. The entries array and the nav children change only through the script.
