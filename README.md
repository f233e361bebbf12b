# Portfolio page scripts, modelled in Dafny

The portfolio site ships two client-side scripts, `script.js` and `js/script.js`. Each one
wires browser events to changes in the document:

- a dark/light theme preference kept in localStorage,
- a mobile navigation menu that opens and closes,
- the nav link of the section in view, which gets class `active`,
- classes that switch on past a scroll threshold,
- smooth scrolling to in-page anchors,
- (`js/script.js` only) a typing effect on the hero subtitle.

This project models both scripts, one module each, over an abstract document:

- `Script` (`script.dfy`) models `script.js`.
- `JsScript` (`js_script.dfy`) models `js/script.js`.
- `Dom` (`dom.dfy`) holds what both use: an `Option` type, section layout boxes, the
  half-open interval test, and two searches. `LastContaining` finds the last section holding
  a position. `FirstIndex` finds the first link with a given href, as querySelector does.
- `Variants` (`variants.dfy`) compares the two scripts.

Each script's document and localStorage form a `Page` class. Its fields are the storage map,
the theme attribute, the root element's custom properties, the theme button's text and
aria-label, the menu's `nav-open` flag with `aria-expanded` (and, in `script.js`, the toggle
icon), one active flag per nav link, and the threshold classes. The parts of the document a
script only reads are a `Layout` value: which elements exist, section offsets, link hrefs
and element tops. In `script.js` a layout has nav links only when it has `.nav-links`. Layout numbers (`offsetTop`, `offsetHeight`, `pageYOffset`) are integers.
Each event handler is a method that changes only the fields it names. The loops of the source
(`applyTheme`'s `for...of`, the `forEach` passes over sections and links, the typing
callback) are loops here. Each is proved against a specification function (`ActiveAfter`,
`HighlightAfter`, `Marked`, `Highlighted`, a map override), and the lemmas about those
functions state what the page promises.

Behaviour of the code worth knowing, which the model follows:

- Neither script reads the OS `prefers-color-scheme` setting.
- Neither script guards localStorage against failure.
- A stored value other than `dark` or `light` is not treated as absent.
  - In `script.js`, `themes[name]` is then `undefined` and `Object.entries` throws. The model
    reports this as `ApplyTheme` returning `false`, with nothing changed. At load the throw
    ends `init` before `initializeApp` runs, so the page gets no theme button and no
    listeners at all: no theme button, menu, smooth-scroll, active-link or nav-scroll
    handling. `Init` then leaves `started` and `hasThemeButton` false, and every event
    method of `Script.Page` (`ThemeButtonClick`, the nav clicks, `ClickAnchor`,
    `UpdateActiveLink`, `NavScroll`) does nothing. `ToggleTheme` is the function the
    button's listener calls, not an event of its own.
  - Names that JavaScript finds on `Object.prototype` (`toString`, `constructor`,
    `__proto__`, ...) do not throw. They apply an empty table.
  - In `js/script.js` the stored value goes onto `<html>` verbatim.
- `js/script.js` prevents the default action of every anchor click except empty or `#`
  hrefs, even when the target does not exist. `script.js` prevents it only when the target
  exists.

## Model

| member | source | states |
|---|---|---|
| `Dom.LastContaining` | script.js:291-296 | the index of the last section in document order whose `[top, top+height)` holds the position, or none when no section holds it |
| `Dom.OrElse` | script.js:46 | the JavaScript logical-or fallback of `getItem(...)` on a string or null: a present non-empty value is kept, anything else gives the fallback |
| `Dom.FirstIndex` | js/script.js:172 | the first link whose href equals the target (what querySelector returns); none exactly when no link has that href |
| `Script.Themes` | script.js:57 | `themes[name]` yields a table iff the name is `dark`, `light` or an `Object.prototype` member; the prototype members yield an empty table, the two themes tables with the same keys |
| `Script.TablesShareKeys` | script.js:15-42 | both theme tables have one key set: exactly the eleven properties in declaration order |
| `Script.EntryOrderCoversTable` | script.js:57-60 | `Object.entries` visits exactly the keys of whatever `themes[name]` resolves to |
| `Script.SwitchOverwritesEveryProperty` | script.js:55-62 | applying either theme after either theme equals applying the second alone: every property is overwritten |
| `Script.StoredTheme` | script.js:45-47 | the stored `portfolio-theme` value when present and non-empty, otherwise `dark`; never empty |
| `Script.Flip` | script.js:71 | the new theme is `light` exactly when the current one is `dark`, and is always `dark` or `light` |
| `Script.FlipTwice` | script.js:69-71 | two toggles from `dark` or `light` return to it |
| `Script.ButtonIcon` | script.js:88 | the icon is `☀️` exactly for `dark`, and `🌙` otherwise |
| `Script.ButtonLabel` | script.js:89 | the label is "Switch to light mode" exactly for `dark`, and "Switch to dark mode" otherwise |
| `Script.NavIcon` | script.js:184 | the toggle icon is `✕` exactly when the menu is open, and `☰` otherwise |
| `Script.LabelNamesNextTheme` | script.js:88-89 | the button label is "Switch to <the theme a toggle gives> mode" |
| `Script.Marked` | script.js:297-302 | after marking, a link is active exactly when its href is the target |
| `Script.ActiveAfter` | script.js:288-304 | the link states after one pass: kept when no section holds the position, otherwise one state per link |
| `Script.ActiveLinkNamesLastSection` | script.js:288-304 | after a pass, a link is active iff its href is `#` + the id of the last section holding offset + 100; link states are unchanged when no section holds it |
| `Script.AtMostOneActive` | script.js:291-302 | with distinct hrefs, a pass that found a section leaves at most one link active |
| `Script.AnchorClick` | script.js:218-231 | a bare `#` is ignored; the default is prevented iff the target exists, and then the scroll target is its offsetTop minus the nav height (0 without a nav) minus 20 |
| `Script.Page.constructor` | script.js:380-381 | the page before the script runs: the given layout, storage and link states, no theme attribute, no inline styles, no button, a closed menu, no `scrolled` class, and no listeners yet |
| `Script.Page.SaveTheme` | script.js:50-52 | storage `portfolio-theme` becomes the name; nothing else changes |
| `Script.Page.ApplyTheme` | script.js:55-66 | for a known table the properties become the old ones overridden by the table and body `data-theme` is the name; for `undefined` (the throw) nothing changes |
| `Script.Page.SetProperties` | script.js:60-62 | the loop sets every entry, so the style becomes the old one overridden by the table |
| `Script.Page.UpdateThemeButton` | script.js:85-94 | with a button: icon `☀️` / "Switch to light mode" for `dark`, `🌙` / "Switch to dark mode" otherwise; without one: nothing changes |
| `Script.Page.ToggleTheme` | script.js:69-82 | the stored theme becomes the flip of the previous one; storage, body `data-theme`, all theme properties and the button then show it |
| `Script.Page.ThemeButtonClick` | script.js:112 | with the theme button (which exists only after a successful `Init` with a nav), a click does what `ToggleTheme` states; without it nothing changes |
| `Script.Page.CreateThemeToggle` | script.js:97-117 | the button exists after the call iff `.topnav` and `.nav-links` exist, and then shows the stored theme |
| `Script.Page.Init` | script.js:380-404 | succeeds iff the stored theme names a table; then the page shows the stored theme, has a button iff the nav exists, and its listeners exist (`started`); otherwise nothing changes and no listener exists |
| `Script.Page.NavToggleClick` | script.js:176-185 | once `initializeApp` ran and both elements exist, the menu flips, `aria-expanded` is the new state, the icon is `✕` when open and `☰` when closed |
| `Script.Page.NavLinkClick` | script.js:188-195 | once the listeners exist, the menu is closed, `aria-expanded` is `false`, the icon is `☰` |
| `Script.Page.DocumentClick` | script.js:198-206 | once the listeners exist, a click outside toggle and links closes an open menu; any other click, or one while closed, changes nothing; aria and icon keep agreeing with the menu |
| `Script.Page.MarkLinks` | script.js:297-302 | the link states become `Marked` for the target |
| `Script.Page.ClickAnchor` | script.js:214-233 | once `initializeApp` ran, an anchor click has the `AnchorClick` outcome; before that, or after a failed `Init`, the default is not prevented and nothing scrolls |
| `Script.Page.UpdateActiveLink` | script.js:288-316 | once `initializeApp` ran, the link states become `ActiveAfter` at `pageYOffset + 100`; otherwise they are kept |
| `Script.Page.NavScroll` | script.js:360-374 | once `initializeApp` ran and with a nav, `scrolled` is set iff `pageYOffset > 50`; otherwise nothing changes |
| `Script.ToggleThenReload` | script.js:69-117 | on a page with a nav, after `init` and one button click, loading again with the storage the click left shows what the clicked page showed: the flipped stored theme when it names a table, no theme when `applyTheme` threw |
| `Script.ToggleRepeatedly` | script.js:69-117 | on a page with a nav and a stored `dark` or `light`, n button clicks show the start theme when n is even and the other theme when n is odd |
| `Script.ApplyTwice` | script.js:55-66 | for every name, applying it twice leaves the page as applying it once: the old style overridden by the table with body `data-theme` the name, or, when `themes[name]` is undefined, the page unchanged |
| `JsScript.InitialTheme` | js/script.js:17-18 | the stored `theme` value when present and non-empty, otherwise `dark`; never empty |
| `JsScript.Flip` | js/script.js:34-35 | the new theme is `light` exactly when `data-theme` is `dark`, and is always `dark` or `light` |
| `JsScript.ThemeIcon` | js/script.js:24 | the icon is `☀️` exactly for `dark`, and `🌙` otherwise |
| `JsScript.ThemeLabel` | js/script.js:25 | the label is "Switch to light mode" exactly for `dark`, and "Switch to dark mode" otherwise |
| `JsScript.LabelNamesNextTheme` | js/script.js:25 | the template label is "Switch to light mode" for `dark`, "Switch to dark mode" otherwise: the theme a click gives |
| `JsScript.ReloadKeepsClickedTheme` | js/script.js:34-38 | storing the clicked theme makes the load-time resolution return it |
| `JsScript.AnchorClick` | js/script.js:116-136 | empty and `#` hrefs are skipped; otherwise the default is prevented; the target id is the href after its first character; an existing target scrolls to its top minus the nav height, or throws without a nav |
| `JsScript.Highlighted` | js/script.js:172-180 | after a containing section's step, a link is active exactly when it is the first link with the target href |
| `JsScript.HighlightAfter` | js/script.js:165-183 | the link states after one call: kept when no section holds the position, otherwise one state per link |
| `JsScript.AtMostOneHighlighted` | js/script.js:165-183 | whenever a section holds the position, at most one link is active afterwards, even with duplicate hrefs |
| `JsScript.HighlightNamesLastSection` | js/script.js:165-183 | a link is active iff it is the first naming the last section holding scrollY + 100; none is if that section has no link; unchanged if no section holds it |
| `JsScript.Page.constructor` | js/script.js:13-29 | at load `<html>` gets the resolved theme, the button shows it, and the links are highlighted once |
| `JsScript.Page.UpdateThemeIcon` | js/script.js:21-27 | with a button: icon and label from `data-theme`; without one: nothing changes |
| `JsScript.Page.ThemeClick` | js/script.js:32-41 | with a button: `data-theme` flips, storage `theme` holds the same value, the button shows it; without one nothing changes |
| `JsScript.Page.NavToggleClick` | js/script.js:78-86 | with a toggle: the menu flips and `aria-expanded` is the new state; no icon changes |
| `JsScript.Page.NavLinkClick` | js/script.js:89-96 | the menu is closed; `aria-expanded` is `false` when the toggle exists |
| `JsScript.Page.DocumentClick` | js/script.js:99-107 | a click with no `.topnav` ancestor closes an open menu, setting `aria-expanded` to `false` when the toggle exists and leaving it alone otherwise; any other click changes nothing |
| `JsScript.Page.ClearActive` | js/script.js:175-177 | every link loses class `active` |
| `JsScript.Page.HighlightNavLink` | js/script.js:165-183 | the link states become `HighlightAfter` at `scrollY + 100` |
| `JsScript.Page.ScrollTopOnScroll` | js/script.js:276-282 | with the button, `visible` is set iff `pageYOffset > 300`; without it nothing changes |
| `JsScript.Typewriter.constructor` | js/script.js:217-226 | the original text is kept and the subtitle starts empty |
| `JsScript.Typewriter.TypeNextChar` | js/script.js:231-237 | keeps text == original[..charIndex] with charIndex <= length; appends the next character until all are typed, then changes nothing |
| `JsScript.TypeFor` | js/script.js:228-240 | after n steps the subtitle is the first min(n, length) characters, and the whole text once n reaches the length |
| `JsScript.ClickRepeatedly` | js/script.js:32-41 | starting from a stored `dark` or `light`, n clicks show the start theme when n is even and the other theme when n is odd |
| `JsScript.ClickThenReload` | js/script.js:13-41 | after a click, loading again with the same storage shows the clicked theme |
| `Variants.ThemeRulesAgree` | js/script.js:21-26 | both scripts flip, pick the icon and build the label identically |
| `Variants.DefaultsAgree` | js/script.js:17 | with neither key stored, both scripts resolve to `dark` |
| `Variants.DuplicateLinks` | js/script.js:172-180 | with two links to the section in view, `script.js` marks both and `js/script.js` only the first |

## Left out

- Scroll-reveal and skill-bar IntersectionObservers: browser callbacks that only add a class.
- Timers and animation frames are not modelled; the callbacks they run are:
  - the 300 ms transition style in `toggleTheme`,
  - `debounce` around the nav-scroll rule (`NavScroll` is the debounced callback),
  - the `requestAnimationFrame` coalescing and `ticking` flags (`UpdateActiveLink` is the frame callback),
  - the typing start delay and per-character delay (`TypeFor` runs the callback n times).
- Parallax and card tilt: floating-point arithmetic and CSS string building.
- `window.scrollTo`: `AnchorClick` returns the requested scroll target instead of calling it.
- The scroll-to-top button's click, `console.log` output, and `tabindex` plus the Enter/Space `click()` forwarding: foreign calls.
- Creating and inserting the button element in `createThemeToggle`: only its effect on the abstract state is modelled.
- The `document.readyState` deferral of `initializeApp`: `Init` runs both steps in order.
- Each handler is modelled on its own. One click reaching several listeners is not modelled as a combined step (a nav link is also an in-page anchor, and every click bubbles to the document).
- `Script.Page.Init`: only the throw of `applyTheme` is modelled. `initializeApp` is taken to run to its end; a throw inside it (for instance `nav.insertBefore` when `.nav-toggle` is not a child of `.topnav`) would leave the later listeners unattached, and the model does not capture that.
- `Script.AnchorClick`: `document.querySelector(href)` throws for an id that is not a valid CSS identifier (e.g. `#1`). The model looks the id up directly and does not model that throw.
- `JsScript.Page`: `.nav-links` is taken to exist. Without it the script throws at its first use, and nothing after that line is attached.
- `Script.Page.ApplyTheme`: `init` runs `applyTheme` before the document is ready, so the model takes `document.body` to exist then. A script placed in `<head>` would set the custom properties and then throw at `document.body.setAttribute`, a partial outcome the model does not capture.
- Constructors assume the markup's menu starts closed, with `aria-expanded` `false` and icon `☰`, and (for `Script.Page.Init`) that the markup has no `#theme-toggle` of its own: the script creates the only one.
- `JsScript.Page.HighlightNavLink`: the model takes the page to have one `.nav-links` list, and takes every section id to be safe inside the quoted selector `.nav-links a[href="#id"]`. An id containing `"` makes `querySelector` throw a `SyntaxError`. The first call is at load, so that throw would stop the rest of the script. An id containing `\` is read as a CSS escape and may match another link or none. With a second `.nav-links`, a link in it could be set active and never cleared, because `navLinkItems` holds only the first list's links.
- `JsScript.Typewriter.TypeNextChar`: JavaScript strings are UTF-16, so a character outside the Basic Multilingual Plane takes two steps in the browser. The model types one Unicode scalar value per step.
- Layout values are integers; the browser's `pageYOffset` and bounding boxes may be fractional.
- OS colour-scheme handling and storage-failure recovery: neither script has them.
- `script (1).js` is not part of this model.
