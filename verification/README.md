# Personal page controls: a verified model

This project models the client-side script of a personal web page (`script.js`). It covers
three pieces of state:

- **Scrollspy.** The navigation links are a fixed array of records: an href and an "active"
  flag. The flag stands for the `navigation__link--active` class. The browser's
  IntersectionObserver delivers batches of entries. Each entry is reduced to a section id and
  whether the section is intersecting. For every intersecting entry, the callback clears the
  flag on every link. It then sets the flag on the first link whose href is `"#" + id`, if
  there is one. Non-intersecting entries do nothing.
  `Scrollspy.ObserverCallback` does this in place on the array. It is proved equal to the
  fold `ApplyBatch` over the entries. The lemmas state what the fold guarantees.
- **Theme switch.** The initial theme is the saved value if it is truthy, and otherwise the
  system preference. `applyTheme` turns a string into the dark-mode flag and the toggle's
  aria-checked attribute. A click flips the mode and stores the new theme under `"theme"`.
- **Burger menu.** A click flips `is-active` on the button and `is-open` on the menu. It sets
  `aria-expanded` to `"true"` exactly when the attribute was not `"true"` before.

Local storage, the colour-scheme media query and the IntersectionObserver's visibility test
are inputs of the model. The stored theme is a field of `Theme.ThemeSwitch` that the click
writes.

Files: `wrappers.dfy` (Option), `attributes.dfy` (boolean attribute text), `scrollspy.dfy`,
`theme.dfy`, `burger.dfy`.

## Model

| member | source | states |
|---|---|---|
| `Scrollspy.FirstMatch` | script.js:92-95 | The lookup returns the first link in document order whose href equals the selector's href. It returns None exactly when no link has that href. |
| `Scrollspy.Highlight` | script.js:87-100 | One intersecting entry keeps every href. Afterwards a link is active exactly when it is the first link with href `"#" + id`. |
| `Scrollspy.ClearActive` | script.js:88-90 | Every link loses its active class in place. Nothing else changes. |
| `Scrollspy.QueryLink` | script.js:93-95 | The in-order scan finds the same link as `FirstMatch`, or none. |
| `Scrollspy.ObserverCallback` | script.js:81-103 | After the callback, the link array equals `ApplyBatch` of its old contents and the entries, in delivery order. |
| `Scrollspy.StartScrollspy` | script.js:107-124 | Every section is watched when there is at least one section and at least one link. Otherwise nothing is watched. |
| `Scrollspy.FirstMatchIgnoresFlags` | script.js:93-95 | The link the lookup finds depends only on the hrefs, never on the active flags. |
| `Scrollspy.HighlightOverwrites` | script.js:87-100 | A later intersecting entry fully overwrites what an earlier one marked. |
| `Scrollspy.HighlightIdempotent` | script.js:87-100 | Processing the same intersecting entry twice gives the same links as processing it once. |
| `Scrollspy.ApplyBatchAppend` | script.js:82-101 | Processing a batch in two consecutive parts gives the same links as processing it whole. |
| `Scrollspy.RepeatedEntryIdempotent` | script.js:82-101 | Anywhere in a batch, an entry delivered twice in a row has the same effect as delivering it once. |
| `Scrollspy.NonIntersectingBatchIsSticky` | script.js:82-84 | A batch in which no entry is intersecting leaves every link unchanged. |
| `Scrollspy.BatchKeepsHrefs` | script.js:81-103 | A batch never changes the number, the order or the hrefs of the links. |
| `Scrollspy.LastIntersectingWins` | script.js:82-101 | The result of a batch is the highlight for the last intersecting entry in delivery order. Without an intersecting entry the links are unchanged. |
| `Scrollspy.BatchKeepsAtMostOneActive` | script.js:87-100 | After a batch with an intersecting entry, at most one link is active, whatever the flags were before. A batch never breaks that property once it holds. |
| `Scrollspy.WinnerIsTheOnlyActive` | script.js:93-100 | When the winning section has a link, that link (the first with its href) is the only active one after the batch. |
| `Scrollspy.UnmatchedSectionClearsAll` | script.js:93-100 | When no link has the winning section's href, the batch ends with every link cleared and its href kept, without failing. |
| `Theme.InitialTheme` | script.js:41-49 | The initial theme is never empty. A truthy saved value is kept as it is. Otherwise the theme is `"dark"` or `"light"`. Dark mode results exactly when the saved value is `"dark"`, or, with no truthy saved value, when the system prefers dark. |
| `Theme.ClickedTheme` | script.js:58-66 | A click applies and stores `"light"` or `"dark"`, and the result is dark exactly when the mode was not dark. |
| `Theme.ClickTwiceRestores` | script.js:56-67 | Two clicks return the dark-mode flag to its starting value. |
| `Theme.ThemeSwitch.constructor` | script.js:40-52 | Page load applies the initial theme and leaves storage as it was. aria-checked mirrors the mode. |
| `Theme.ThemeSwitch.ApplyTheme` | script.js:30-38 | Dark mode is set exactly when the theme is `"dark"`; any other string gives light. aria-checked mirrors the mode. |
| `Theme.ThemeSwitch.Click` | script.js:56-67 | A click flips the mode and stores the new theme. The stored value is `"dark"` exactly when the new mode is dark. |
| `Theme.ClickTwice` | script.js:56-67 | Two clicks restore the dark-mode flag and aria-checked. Storage is not restored: it ends at the theme of the original mode (`"dark"` or `"light"`), whatever was saved before, absent or `""` or any other string included. |
| `Attributes.BoolText` | script.js:19 | A boolean written as an attribute becomes `"true"` or `"false"`, and `"true"` exactly for true. The theme's aria-checked (script.js:33, 36) uses the same text, so it is `"true"` in dark mode and `"false"` in light mode. |
| `Burger.ExpandedAfterClick` | script.js:18-19 | After a click, aria-expanded is `"true"` exactly when it was not `"true"` before, including when it was absent. |
| `Burger.ExpandedTwiceRestores` | script.js:17-19 | Starting from `"true"` or `"false"`, two clicks give the original aria-expanded back. |
| `Burger.ExpandedTwiceFromAbsent` | script.js:18-19 | Starting from an absent attribute, two clicks leave `"false"` rather than the absent attribute. |
| `Burger.BurgerMenu.Click` | script.js:10-20 | A click flips `is-active` and `is-open` and rewrites aria-expanded as `ExpandedAfterClick` says. |
| `Burger.ClickTwice` | script.js:12-19 | With a well-formed aria-expanded, two clicks restore all three pieces of state. |

## Left out

- Visibility: the IntersectionObserver geometry, the 0.6 threshold and the root margin (script.js:109-119) are browser layout work in floating point. The model takes `isIntersecting` as an input of each entry.
- DOM queries and event plumbing: the `querySelectorAll` calls (script.js:72-73), the `DOMContentLoaded` wrapper and the `addEventListener` registrations (script.js:2, 10, 56). The `observe` calls themselves (script.js:122-124) are reduced to the list of watched section ids.
- Scrollspy.FirstMatch: the model assumes that the document's `.navigation__link` elements stay exactly the `navLinks` list captured at load (script.js:73). The clearing loop walks that list (script.js:88-90), but the lookup queries the live document (script.js:93-95). If a link were added after load, the lookup could mark it and no later batch would clear it, so two links could be active. `BatchKeepsAtMostOneActive` holds only under this assumption.
- Scrollspy.FirstMatch: the lookup compares hrefs by plain string equality. The script builds a CSS attribute selector from the section id. An id holding `"`, `\` or a line break would be parsed by the selector syntax (escapes, an early end of the string, or a thrown SyntaxError), and the model does not follow that.
- Local storage and `matchMedia` (script.js:41, 45-47, 62, 65) are plain inputs, and the stored theme is a field. Storage failures are not modelled.
- The missing elements: the burger handler is registered only when both elements exist (script.js:9), and the theme click handler only when the button exists (script.js:55). `applyTheme` touches the button without a null check (script.js:33, 36). The model assumes all three elements exist.
- The nav-link close handler (script.js:129-139) is not modelled. At top level it refers to `navigationMenu` and `burgerButton`, which are declared only inside the `DOMContentLoaded` callback (script.js:6-7), and their top-level declarations are commented out (script.js:75-77). As written, the condition at script.js:129 fails with a ReferenceError, so the handler is never installed.
- Concurrency: the browser runs each callback to completion on one thread. The model treats each batch and each click as one atomic method call.
