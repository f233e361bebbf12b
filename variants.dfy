/** How the two page scripts compare: the same theme rules under different storage keys,
    and different choices of active link when several links name the same section. */
module Variants {
  import Dom
  import Script
  import JsScript

  /** Both scripts flip, label and decorate the theme button alike. */
  lemma ThemeRulesAgree(theme: string)
    ensures Script.Flip(theme) == JsScript.Flip(theme)
    ensures Script.ButtonIcon(theme) == JsScript.ThemeIcon(theme)
    ensures Script.ButtonLabel(theme) == JsScript.ThemeLabel(theme)
  {
  }

  /** Both scripts resolve a missing or empty preference to "dark", each under its own key. */
  lemma DefaultsAgree(storage: map<string, string>)
    requires Script.ThemeKey !in storage && JsScript.ThemeKey !in storage
    ensures Script.StoredTheme(storage) == JsScript.InitialTheme(storage) == "dark"
  {
  }

  /** With two links to the one section that holds the position, script.js marks both
      and js/script.js marks only the first. */
  lemma DuplicateLinks()
    ensures var hrefs, sections := ["#about", "#about"], [Dom.Section("about", 0, 500)];
      && Script.ActiveAfter(hrefs, sections, [false, false], 100) == [true, true]
      && JsScript.HighlightAfter(hrefs, sections, [false, false], 100) == [true, false]
  {
  }
}
