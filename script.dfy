/** script.js: the theme controller keyed by "portfolio-theme", which writes the
    theme's custom properties one by one; the mobile navigation with its icon;
    active-link highlighting; the nav's "scrolled" class; smooth scrolling. */
module Script {
  import opened Dom

  const ThemeKey: string := "portfolio-theme"

  /** The `themes` table: the custom properties each theme sets on the root element. */
  const DarkColors: map<string, string> := map[
    "--bg-primary" := "#0a0c10",
    "--bg-secondary" := "#111420",
    "--bg-card" := "#161b26",
    "--bg-card-hover" := "#1c2333",
    "--accent" := "#7dd3fc",
    "--accent-dim" := "#38bdf8",
    "--accent-glow" := "rgba(125,211,252,.25)",
    "--text-primary" := "#f1f5f9",
    "--text-muted" := "#8b95a7",
    "--text-subtle" := "#525e70",
    "--border" := "rgba(255,255,255,.06)"
  ]

  const LightColors: map<string, string> := map[
    "--bg-primary" := "#ffffff",
    "--bg-secondary" := "#f8fafc",
    "--bg-card" := "#f1f5f9",
    "--bg-card-hover" := "#e2e8f0",
    "--accent" := "#0284c7",
    "--accent-dim" := "#0ea5e9",
    "--accent-glow" := "rgba(2,132,199,.15)",
    "--text-primary" := "#0f172a",
    "--text-muted" := "#475569",
    "--text-subtle" := "#94a3b8",
    "--border" := "rgba(0,0,0,.08)"
  ]

  /** The order in which both tables declare their properties, which is the order
      Object.entries visits them. */
  const PropertyOrder: seq<string> := [
    "--bg-primary", "--bg-secondary", "--bg-card", "--bg-card-hover", "--accent",
    "--accent-dim", "--accent-glow", "--text-primary", "--text-muted", "--text-subtle",
    "--border"
  ]

  /** Names that `themes[name]` resolves through Object.prototype. Each resolves to a
      function or to Object.prototype itself, neither of which has an own enumerable
      property, so Object.entries yields nothing for them. */
  const PrototypeMembers: set<string> := {
    "constructor", "hasOwnProperty", "isPrototypeOf", "propertyIsEnumerable",
    "toString", "toLocaleString", "valueOf", "__proto__", "__defineGetter__",
    "__defineSetter__", "__lookupGetter__", "__lookupSetter__"
  }

  /** `themes[name]` as Object.entries sees it: the table of a theme, an empty
      table for an Object.prototype member, None for undefined. */
  function Themes(name: string): (r: Option<map<string, string>>)
    ensures r.None? <==> name != "dark" && name != "light" && name !in PrototypeMembers
    ensures name in PrototypeMembers ==> r == Some(map[])
    ensures name == "dark" || name == "light" ==> r.Some? && r.value.Keys == DarkColors.Keys
  {
    if name == "dark" then Some(DarkColors)
    else if name == "light" then Some(LightColors)
    else if name in PrototypeMembers then Some(map[])
    else None
  }

  /** The keys Object.entries(themes[name]) visits, in order. */
  function EntryOrder(name: string): seq<string>
  {
    if name == "dark" || name == "light" then PropertyOrder else []
  }

  /** Both tables set the same eleven properties, those PropertyOrder lists. */
  lemma TablesShareKeys()
    ensures |PropertyOrder| == 11
    ensures DarkColors.Keys == LightColors.Keys
    ensures forall k :: k in DarkColors <==> k in PropertyOrder
  {
  }

  /** Object.entries visits exactly the keys of the table it is given. */
  lemma EntryOrderCoversTable(name: string)
    requires Themes(name).Some?
    ensures forall k :: k in EntryOrder(name) <==> k in Themes(name).value
  {
  }

  /** Applying a theme after either theme leaves the same properties as applying it
      alone: the second table overwrites every property the first one set. */
  lemma SwitchOverwritesEveryProperty(style: map<string, string>, first: string, second: string)
    requires first == "dark" || first == "light"
    requires second == "dark" || second == "light"
    ensures style + Themes(first).value + Themes(second).value == style + Themes(second).value
  {
  }

  /** getStoredTheme(): the stored preference, or "dark" when it is absent or empty. */
  function StoredTheme(storage: map<string, string>): (theme: string)
    ensures ThemeKey in storage && storage[ThemeKey] != "" ==> theme == storage[ThemeKey]
    ensures ThemeKey !in storage || storage[ThemeKey] == "" ==> theme == "dark"
    ensures theme != ""
  {
    OrElse(Get(storage, ThemeKey), "dark")
  }

  /** The theme a toggle moves to from the current one. */
  function Flip(current: string): (next: string)
    ensures next == "light" <==> current == "dark"
    ensures next == "dark" || next == "light"
  {
    if current == "dark" then "light" else "dark"
  }

  /** Two toggles from either theme come back to it. */
  lemma FlipTwice(theme: string)
    requires theme == "dark" || theme == "light"
    ensures Flip(Flip(theme)) == theme
  {
  }

  /** The theme button's icon for a theme. */
  function ButtonIcon(theme: string): (icon: string)
    ensures icon == "☀️" <==> theme == "dark"
    ensures icon == "☀️" || icon == "🌙"
  {
    if theme == "dark" then "☀️" else "🌙"
  }

  /** The theme button's aria-label for a theme. */
  function ButtonLabel(theme: string): (text: string)
    ensures text == "Switch to light mode" <==> theme == "dark"
    ensures text == "Switch to light mode" || text == "Switch to dark mode"
  {
    if theme == "dark" then "Switch to light mode" else "Switch to dark mode"
  }

  /** The label names the theme a toggle would move to. */
  lemma LabelNamesNextTheme(theme: string)
    ensures ButtonLabel(theme) == "Switch to " + Flip(theme) + " mode"
  {
  }

  /** The `.nav-toggle` icon for an open and a closed menu. */
  function NavIcon(open: bool): (icon: string)
    ensures icon == "✕" <==> open
    ensures icon == "✕" || icon == "☰"
  {
    if open then "✕" else "☰"
  }

  /** The link states after MarkLinks(target): a link is active iff its href is target. */
  function Marked(hrefs: seq<string>, target: string): (r: seq<bool>)
    ensures |r| == |hrefs|
    ensures forall j :: 0 <= j < |r| ==> (r[j] <==> hrefs[j] == target)
  {
    seq(|hrefs|, j requires 0 <= j < |hrefs| => hrefs[j] == target)
  }

  /** The link states after one pass of updateActiveLink at position pos. */
  function ActiveAfter(hrefs: seq<string>, sections: seq<Section>, before: seq<bool>, pos: int): (r: seq<bool>)
    ensures LastContaining(sections, pos).None? ==> r == before
    ensures LastContaining(sections, pos).Some? ==> |r| == |hrefs|
    ensures |before| == |hrefs| ==> |r| == |hrefs|
  {
    match LastContaining(sections, pos)
    case None => before
    case Some(i) => Marked(hrefs, "#" + sections[i].id)
  }

  /** If a section holds the position, a link is active after the pass exactly when its
      href names the last section that holds it; otherwise the link states are kept. */
  lemma ActiveLinkNamesLastSection(hrefs: seq<string>, sections: seq<Section>, before: seq<bool>, pos: int)
    requires |before| == |hrefs|
    ensures var r := ActiveAfter(hrefs, sections, before, pos);
      && |r| == |hrefs|
      && ((forall i :: 0 <= i < |sections| ==> !Contains(sections[i], pos)) ==> r == before)
      && forall i, j ::
           (0 <= i < |sections| && Contains(sections[i], pos)
            && (forall k :: i < k < |sections| ==> !Contains(sections[k], pos))
            && 0 <= j < |hrefs|) ==> (r[j] <==> hrefs[j] == "#" + sections[i].id)
  {
  }

  /** When the hrefs are distinct, at most one link is active after a pass that found a section. */
  lemma AtMostOneActive(hrefs: seq<string>, sections: seq<Section>, before: seq<bool>, pos: int)
    requires |before| == |hrefs|
    requires forall a, b :: 0 <= a < b < |hrefs| ==> hrefs[a] != hrefs[b]
    requires LastContaining(sections, pos).Some?
    ensures var r := ActiveAfter(hrefs, sections, before, pos);
      forall a, b :: 0 <= a < b < |r| ==> !(r[a] && r[b])
  {
  }

  /** Where a click on an in-page anchor leaves the page. */
  datatype AnchorOutcome = AnchorOutcome(defaultPrevented: bool, scrollTo: Option<int>)

  /** The static parts of the document the script reads. */
  datatype Layout = Layout(
    topnav: Option<int>,            // `.topnav`, by its offsetHeight
    hasNavToggle: bool,             // `.nav-toggle` exists
    hasNavLinks: bool,              // `.nav-links` exists
    linkHrefs: seq<string>,         // hrefs of `.nav-links a[href^="#"]`, in document order
    sections: seq<Section>,         // `section[id]`, in document order
    elementTops: map<string, int>   // offsetTop of the element with each id
  )
  {
    /** Nav links exist only inside `.nav-links`. */
    predicate WellFormed()
    {
      !hasNavLinks ==> linkHrefs == []
    }
  }

  /** The smooth-scroll click handler on an anchor whose href starts with '#'. */
  function AnchorClick(layout: Layout, href: string): (r: AnchorOutcome)
    requires |href| > 0 && href[0] == '#'
    ensures r.defaultPrevented <==> href != "#" && href[1..] in layout.elementTops
    ensures r.scrollTo.Some? <==> r.defaultPrevented
    ensures r.scrollTo.Some? ==>
      r.scrollTo.value + 20 + (if layout.topnav.Some? then layout.topnav.value else 0)
        == layout.elementTops[href[1..]]
  {
    if href == "#" then AnchorOutcome(false, None)
    else if href[1..] in layout.elementTops then
      var navHeight := match layout.topnav case Some(h) => h case None => 0;
      AnchorOutcome(true, Some(layout.elementTops[href[1..]] - navHeight - 20))
    else AnchorOutcome(false, None)
  }

  /** The document and localStorage as script.js sees and changes them. */
  class Page {
    const layout: Layout
    var storage: map<string, string>         // localStorage
    var bodyTheme: Option<string>            // body's data-theme attribute
    var cssVars: map<string, string>         // custom properties on the root element's style
    var hasThemeButton: bool                 // `#theme-toggle` exists
    var themeButtonText: string
    var themeButtonLabel: string             // its aria-label
    var navOpen: bool                        // `.nav-links` has class nav-open
    var ariaExpanded: string                 // `.nav-toggle`'s aria-expanded
    var toggleIcon: string                   // `.nav-toggle`'s text
    var linkActive: seq<bool>                // which nav links have class active
    var navScrolled: bool                    // `.topnav` has class scrolled
    var started: bool                        // initializeApp ran: its listeners exist

    ghost predicate Valid()
      reads this
    {
      layout.WellFormed() && |linkActive| == |layout.linkHrefs|
    }

    /** The body theme, the theme properties and the button all show the stored theme. */
    ghost predicate ShowsStoredTheme()
      reads this
    {
      var theme := StoredTheme(storage);
      && bodyTheme == Some(theme)
      && Themes(theme).Some?
      && (forall k :: k in Themes(theme).value ==> k in cssVars && cssVars[k] == Themes(theme).value[k])
      && (hasThemeButton ==> themeButtonText == ButtonIcon(theme) && themeButtonLabel == ButtonLabel(theme))
    }

    /** aria-expanded and the icon agree with whether the menu is open. */
    ghost predicate NavShown()
      reads this
    {
      ariaExpanded == BoolText(navOpen) && toggleIcon == NavIcon(navOpen)
    }

    /** The page as loaded, before the script runs: closed menu, no inline styles. */
    constructor (layout: Layout, storage: map<string, string>, active: seq<bool>)
      requires layout.WellFormed() && |active| == |layout.linkHrefs|
      ensures Valid() && NavShown()
      ensures this.layout == layout && this.storage == storage && linkActive == active
      ensures bodyTheme == None && cssVars == map[] && !hasThemeButton
      ensures !navOpen && !navScrolled && !started
    {
      this.layout := layout;
      this.storage := storage;
      linkActive := active;
      bodyTheme := None;
      cssVars := map[];
      hasThemeButton := false;
      themeButtonText := "";
      themeButtonLabel := "";
      navOpen := false;
      ariaExpanded := "false";
      toggleIcon := "☰";
      navScrolled := false;
      started := false;
    }

    /** saveTheme */
    method SaveTheme(name: string)
      modifies this`storage
      ensures storage == old(storage)[ThemeKey := name]
    {
      storage := storage[ThemeKey := name];
    }

    /** applyTheme: ok is false when Object.entries throws on an undefined table,
        in which case nothing changes. */
    method ApplyTheme(name: string) returns (ok: bool)
      modifies this`cssVars, this`bodyTheme
      ensures ok <==> Themes(name).Some?
      ensures ok ==> cssVars == old(cssVars) + Themes(name).value && bodyTheme == Some(name)
      ensures !ok ==> cssVars == old(cssVars) && bodyTheme == old(bodyTheme)
    {
      var colors := Themes(name);
      if colors.None? {
        return false;
      }
      EntryOrderCoversTable(name);
      SetProperties(EntryOrder(name), colors.value);
      bodyTheme := Some(name);
      ok := true;
    }

    /** The for...of loop of applyTheme: root.style.setProperty for each entry, in order. */
    method SetProperties(order: seq<string>, table: map<string, string>)
      requires forall k :: k in order <==> k in table
      modifies this`cssVars
      ensures cssVars == old(cssVars) + table
    {
      ghost var written: set<string> := {};
      for i := 0 to |order|
        invariant written <= table.Keys
        invariant forall j :: 0 <= j < i ==> order[j] in written
        invariant cssVars == old(cssVars) + map k | k in written :: table[k]
      {
        cssVars := cssVars[order[i] := table[order[i]]];
        written := written + {order[i]};
      }
      assert written == table.Keys;
    }

    /** updateThemeButton: icon and label for the theme, when the button exists. */
    method UpdateThemeButton(name: string)
      modifies this`themeButtonText, this`themeButtonLabel
      ensures hasThemeButton ==> themeButtonText == ButtonIcon(name) && themeButtonLabel == ButtonLabel(name)
      ensures !hasThemeButton ==> themeButtonText == old(themeButtonText) && themeButtonLabel == old(themeButtonLabel)
    {
      if hasThemeButton {
        themeButtonText := ButtonIcon(name);
        themeButtonLabel := ButtonLabel(name);
      }
    }

    /** toggleTheme: the flipped stored theme is applied, saved and shown on the button. */
    method ToggleTheme()
      modifies this`storage, this`cssVars, this`bodyTheme, this`themeButtonText, this`themeButtonLabel
      ensures StoredTheme(storage) == Flip(StoredTheme(old(storage)))
      ensures storage == old(storage)[ThemeKey := Flip(StoredTheme(old(storage)))]
      ensures cssVars == old(cssVars) + Themes(Flip(StoredTheme(old(storage)))).value
      ensures !hasThemeButton ==> themeButtonText == old(themeButtonText) && themeButtonLabel == old(themeButtonLabel)
      ensures ShowsStoredTheme()
    {
      var currentTheme := StoredTheme(storage);
      var newTheme := if currentTheme == "dark" then "light" else "dark";
      var ok := ApplyTheme(newTheme);
      SaveTheme(newTheme);
      UpdateThemeButton(newTheme);
      assert StoredTheme(storage) == newTheme;
    }

    /** A click on `#theme-toggle`: its listener, toggleTheme, runs when the button exists;
        the script creates the button and attaches the listener in one step. */
    method ThemeButtonClick()
      modifies this`storage, this`cssVars, this`bodyTheme, this`themeButtonText, this`themeButtonLabel
      ensures hasThemeButton ==> StoredTheme(storage) == Flip(StoredTheme(old(storage)))
      ensures hasThemeButton ==> storage == old(storage)[ThemeKey := Flip(StoredTheme(old(storage)))]
      ensures hasThemeButton ==> cssVars == old(cssVars) + Themes(Flip(StoredTheme(old(storage)))).value
      ensures hasThemeButton ==> ShowsStoredTheme()
      ensures !hasThemeButton ==> unchanged(this)
    {
      if hasThemeButton {
        ToggleTheme();
      }
    }

    /** createThemeToggle: the button is inserted when `.topnav` and `.nav-links` exist,
        and shows the stored theme. */
    method CreateThemeToggle()
      modifies this`hasThemeButton, this`themeButtonText, this`themeButtonLabel
      ensures hasThemeButton == (old(hasThemeButton) || (layout.topnav.Some? && layout.hasNavLinks))
      ensures layout.topnav.Some? && layout.hasNavLinks ==>
        themeButtonText == ButtonIcon(StoredTheme(storage)) && themeButtonLabel == ButtonLabel(StoredTheme(storage))
      ensures !(layout.topnav.Some? && layout.hasNavLinks) ==>
        themeButtonText == old(themeButtonText) && themeButtonLabel == old(themeButtonLabel)
    {
      if layout.topnav.Some? && layout.hasNavLinks {
        hasThemeButton := true;
        themeButtonLabel := "Toggle theme";
        UpdateThemeButton(StoredTheme(storage));
      }
    }

    /** init: applies the stored theme and, when that does not throw, runs initializeApp,
        which inserts the button and attaches every listener; when applyTheme throws,
        initializeApp never runs and no listener exists. It runs once, on a page whose
        markup has no `#theme-toggle` of its own: the script creates the only one. */
    method Init() returns (ok: bool)
      requires !hasThemeButton && !started
      modifies this`cssVars, this`bodyTheme, this`hasThemeButton, this`themeButtonText, this`themeButtonLabel, this`started
      ensures ok <==> Themes(StoredTheme(storage)).Some?
      ensures started == ok
      ensures ok ==> ShowsStoredTheme()
      ensures ok ==> hasThemeButton == (layout.topnav.Some? && layout.hasNavLinks)
      ensures ok ==> cssVars == old(cssVars) + Themes(StoredTheme(storage)).value
      ensures !ok ==> unchanged(this)
    {
      ok := ApplyTheme(StoredTheme(storage));
      if ok {
        CreateThemeToggle();
        started := true;
      }
    }

    /** The click listeners of initMobileNav exist only when initializeApp ran and both
        elements exist. */
    predicate NavWired()
      reads this
    {
      started && layout.hasNavToggle && layout.hasNavLinks
    }

    /** A click on an in-page anchor: the initSmoothScroll listener applies AnchorClick
        when initializeApp ran; otherwise no listener exists and the default proceeds. */
    method ClickAnchor(href: string) returns (r: AnchorOutcome)
      requires |href| > 0 && href[0] == '#'
      ensures started ==> r == AnchorClick(layout, href)
      ensures !started ==> !r.defaultPrevented && r.scrollTo.None?
    {
      if started {
        r := AnchorClick(layout, href);
      } else {
        r := AnchorOutcome(false, None);
      }
    }

    /** Click on `.nav-toggle`: the menu flips and aria-expanded and the icon follow. */
    method NavToggleClick()
      modifies this`navOpen, this`ariaExpanded, this`toggleIcon
      ensures NavWired() ==> navOpen == !old(navOpen) && NavShown()
      ensures !NavWired() ==> unchanged(this)
    {
      if NavWired() {
        navOpen := !navOpen;
        var isOpen := navOpen;
        ariaExpanded := BoolText(isOpen);
        toggleIcon := NavIcon(isOpen);
      }
    }

    /** Click on a link inside `.nav-links`: the menu closes. */
    method NavLinkClick()
      modifies this`navOpen, this`ariaExpanded, this`toggleIcon
      ensures NavWired() ==> !navOpen && ariaExpanded == "false" && toggleIcon == "☰"
      ensures !NavWired() ==> unchanged(this)
    {
      if NavWired() {
        navOpen := false;
        ariaExpanded := "false";
        toggleIcon := "☰";
      }
    }

    /** Any click on the document: one outside the toggle and the links closes an open menu. */
    method DocumentClick(insideNav: bool)
      modifies this`navOpen, this`ariaExpanded, this`toggleIcon
      ensures NavWired() && !insideNav && old(navOpen) ==> !navOpen && ariaExpanded == "false" && toggleIcon == "☰"
      ensures !(NavWired() && !insideNav && old(navOpen)) ==> unchanged(this)
      ensures old(NavShown()) ==> NavShown()
    {
      if NavWired() && !insideNav && navOpen {
        navOpen := false;
        ariaExpanded := "false";
        toggleIcon := "☰";
      }
    }

    /** The inner forEach of updateActiveLink: each link loses class active and regains
        it iff its href is target. */
    method MarkLinks(target: string)
      requires Valid()
      modifies this`linkActive
      ensures linkActive == Marked(layout.linkHrefs, target)
    {
      var hrefs := layout.linkHrefs;
      for j := 0 to |hrefs|
        invariant |linkActive| == |hrefs|
        invariant forall k :: 0 <= k < j ==> (linkActive[k] <==> hrefs[k] == target)
      {
        linkActive := linkActive[j := false];
        if hrefs[j] == target {
          linkActive := linkActive[j := true];
        }
      }
    }

    /** The scroll listener of initActiveNavigation at the given pageYOffset: one pass of
        updateActiveLink, when initializeApp ran. */
    method UpdateActiveLink(pageYOffset: int)
      requires Valid()
      modifies this`linkActive
      ensures Valid()
      ensures started ==> linkActive == ActiveAfter(layout.linkHrefs, layout.sections, old(linkActive), pageYOffset + 100)
      ensures !started ==> linkActive == old(linkActive)
    {
      if !started {
        return;
      }
      var scrollPosition := pageYOffset + 100;
      var sections := layout.sections;
      for i := 0 to |sections|
        invariant Valid()
        invariant linkActive == ActiveAfter(layout.linkHrefs, sections[..i], old(linkActive), scrollPosition)
      {
        assert sections[..i + 1][..i] == sections[..i];
        var section := sections[i];
        if scrollPosition >= section.top && scrollPosition < section.top + section.height {
          MarkLinks("#" + section.id);
        }
      }
      assert sections[..|sections|] == sections;
    }

    /** The initNavScroll listener: `.topnav` has class scrolled iff pageYOffset > 50,
        when initializeApp ran and the nav exists. */
    method NavScroll(pageYOffset: int)
      modifies this`navScrolled
      ensures started && layout.topnav.Some? ==> (navScrolled <==> pageYOffset > 50)
      ensures !(started && layout.topnav.Some?) ==> navScrolled == old(navScrolled)
    {
      if started && layout.topnav.Some? {
        if pageYOffset > 50 {
          navScrolled := true;
        } else {
          navScrolled := false;
        }
      }
    }
  }

  /** Load a page with a nav, click the theme button once, then load again with the
      storage the click left: the reloaded page shows what the clicked page showed. When
      the stored name resolves to a table, that is the flipped theme; otherwise applyTheme
      threw, no button exists, and neither load shows a theme. */
  method ToggleThenReload(layout: Layout, storage: map<string, string>) returns (shown: Option<string>, reloaded: Option<string>)
    requires layout.topnav.Some? && layout.hasNavLinks
    ensures Themes(StoredTheme(storage)).Some? ==> shown == Some(Flip(StoredTheme(storage)))
    ensures Themes(StoredTheme(storage)).None? ==> shown == None
    ensures reloaded == shown
  {
    var page := new Page(layout, storage, seq(|layout.linkHrefs|, _ => false));
    var ok := page.Init();
    page.ThemeButtonClick();
    shown := page.bodyTheme;
    var again := new Page(layout, page.storage, seq(|layout.linkHrefs|, _ => false));
    ok := again.Init();
    reloaded := again.bodyTheme;
  }

  /** Load a page with a nav whose stored theme is start and click the theme button n
      times: the page shows start after an even number of clicks and the other theme after
      an odd number. */
  method ToggleRepeatedly(layout: Layout, start: string, n: nat) returns (shown: Option<string>)
    requires layout.topnav.Some? && layout.hasNavLinks
    requires start == "dark" || start == "light"
    ensures shown == Some(if n % 2 == 0 then start else Flip(start))
  {
    var page := new Page(layout, map[ThemeKey := start], seq(|layout.linkHrefs|, _ => false));
    var ok := page.Init();
    for i := 0 to n
      invariant page.hasThemeButton
      invariant page.bodyTheme == Some(StoredTheme(page.storage))
      invariant StoredTheme(page.storage) == if i % 2 == 0 then start else Flip(start)
    {
      page.ThemeButtonClick();
    }
    shown := page.bodyTheme;
  }

  /** applyTheme is idempotent for every name it can receive: applying a name twice leaves
      the page as applying it once, whether the name resolves to a table or throws. */
  method ApplyTwice(page: Page, name: string) returns (once: map<string, string>, twice: map<string, string>)
    modifies page`cssVars, page`bodyTheme
    ensures once == twice
    ensures Themes(name).Some? ==> twice == old(page.cssVars) + Themes(name).value && page.bodyTheme == Some(name)
    ensures Themes(name).None? ==> twice == old(page.cssVars) && page.bodyTheme == old(page.bodyTheme)
    ensures page.cssVars == twice
  {
    var ok := page.ApplyTheme(name);
    once := page.cssVars;
    ok := page.ApplyTheme(name);
    twice := page.cssVars;
    if name == "dark" || name == "light" {
      SwitchOverwritesEveryProperty(old(page.cssVars), name, name);
    }
  }
}
