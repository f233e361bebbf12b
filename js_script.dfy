/** js/script.js: the theme controller keyed by "theme", which reads the current theme
    from the <html> data-theme attribute; the mobile navigation without an icon;
    active-link highlighting through querySelector; smooth scrolling; the scroll-to-top
    button's "visible" class; the typing effect on the hero subtitle. */
module JsScript {
  import opened Dom

  const ThemeKey: string := "theme"

  /** The theme set on <html> at load: the stored "theme" value, or "dark" when it
      is absent or empty. */
  function InitialTheme(storage: map<string, string>): (theme: string)
    ensures ThemeKey in storage && storage[ThemeKey] != "" ==> theme == storage[ThemeKey]
    ensures ThemeKey !in storage || storage[ThemeKey] == "" ==> theme == "dark"
    ensures theme != ""
  {
    OrElse(Get(storage, ThemeKey), "dark")
  }

  /** The theme a click moves to from the one on <html>. */
  function Flip(current: string): (next: string)
    ensures next == "light" <==> current == "dark"
    ensures next == "dark" || next == "light"
  {
    if current == "dark" then "light" else "dark"
  }

  /** The button's icon for the theme on <html>. */
  function ThemeIcon(theme: string): (icon: string)
    ensures icon == "☀️" <==> theme == "dark"
    ensures icon == "☀️" || icon == "🌙"
  {
    if theme == "dark" then "☀️" else "🌙"
  }

  /** The button's aria-label for the theme on <html>, built from a template. */
  function ThemeLabel(theme: string): (text: string)
    ensures text == "Switch to light mode" <==> theme == "dark"
    ensures text == "Switch to light mode" || text == "Switch to dark mode"
  {
    "Switch to " + (if theme == "dark" then "light" else "dark") + " mode"
  }

  /** The label names the theme a click would move to, and reads as one of two sentences. */
  lemma LabelNamesNextTheme(theme: string)
    ensures ThemeLabel(theme) == "Switch to " + Flip(theme) + " mode"
    ensures theme == "dark" ==> ThemeLabel(theme) == "Switch to light mode"
    ensures theme != "dark" ==> ThemeLabel(theme) == "Switch to dark mode"
  {
  }

  /** A click stores what it shows, so loading again shows the same theme. */
  lemma ReloadKeepsClickedTheme(storage: map<string, string>, current: string)
    ensures InitialTheme(storage[ThemeKey := Flip(current)]) == Flip(current)
  {
  }

  /** The static parts of the document the script reads. `.nav-links` is taken to exist:
      the script reads its links unguarded. */
  datatype Layout = Layout(
    hasThemeButton: bool,           // `#theme-toggle` exists
    hasNavToggle: bool,             // `.nav-toggle` exists
    linkHrefs: seq<string>,         // hrefs of every `a` inside `.nav-links`, in document order
    sections: seq<Section>,         // `section[id]`, in document order
    elementTops: map<string, int>,  // document top (bounding top + pageYOffset) of the element with each id
    topnav: Option<int>,            // `.topnav`, by its offsetHeight
    hasScrollTop: bool              // `#scroll-top` exists
  )

  /** What a click on an in-page anchor asks of the window. Throws: reading the
      offsetHeight of a missing `.topnav` raises a TypeError. */
  datatype ScrollAction = NoScroll | ScrollTo(top: int) | Throws

  datatype AnchorOutcome = AnchorOutcome(defaultPrevented: bool, action: ScrollAction)

  /** The smooth-scroll click handler. */
  function AnchorClick(layout: Layout, href: string): (r: AnchorOutcome)
    ensures r.defaultPrevented <==> href != "" && href != "#"
    ensures r.action.NoScroll? <==> !r.defaultPrevented || href[1..] !in layout.elementTops
    ensures r.action.Throws? <==> r.defaultPrevented && href[1..] in layout.elementTops && layout.topnav.None?
    ensures r.action.ScrollTo? ==>
      layout.topnav.Some? && r.action.top + layout.topnav.value == layout.elementTops[href[1..]]
  {
    if href == "" || href == "#" then AnchorOutcome(false, NoScroll)
    else
      var targetId := href[1..];
      if targetId !in layout.elementTops then AnchorOutcome(true, NoScroll)
      else match layout.topnav
        case None => AnchorOutcome(true, Throws)
        case Some(navHeight) => AnchorOutcome(true, ScrollTo(layout.elementTops[targetId] - navHeight))
  }

  /** The link states after a containing section's step: only the first link whose href
      is target is active. */
  function Highlighted(hrefs: seq<string>, target: string): (r: seq<bool>)
    ensures |r| == |hrefs|
    ensures forall j :: 0 <= j < |r| ==> (r[j] <==> FirstIndex(hrefs, target) == Some(j))
  {
    seq(|hrefs|, j requires 0 <= j < |hrefs| => FirstIndex(hrefs, target) == Some(j))
  }

  /** The link states after one call of highlightNavLink at position pos. */
  function HighlightAfter(hrefs: seq<string>, sections: seq<Section>, before: seq<bool>, pos: int): (r: seq<bool>)
    ensures LastContaining(sections, pos).None? ==> r == before
    ensures LastContaining(sections, pos).Some? ==> |r| == |hrefs|
    ensures |before| == |hrefs| ==> |r| == |hrefs|
  {
    match LastContaining(sections, pos)
    case None => before
    case Some(i) => Highlighted(hrefs, "#" + sections[i].id)
  }

  /** Whenever a section holds the position, at most one link is active afterwards,
      duplicate hrefs or not. */
  lemma AtMostOneHighlighted(hrefs: seq<string>, sections: seq<Section>, before: seq<bool>, pos: int)
    requires LastContaining(sections, pos).Some?
    ensures var r := HighlightAfter(hrefs, sections, before, pos);
      forall a, b :: 0 <= a < b < |r| ==> !(r[a] && r[b])
  {
  }

  /** A link is active after the call exactly when it is the first link naming the last
      section that holds the position; none is when that section has no link; the states
      are kept when no section holds it. */
  lemma HighlightNamesLastSection(hrefs: seq<string>, sections: seq<Section>, before: seq<bool>, pos: int)
    ensures var r := HighlightAfter(hrefs, sections, before, pos);
      && ((forall i :: 0 <= i < |sections| ==> !Contains(sections[i], pos)) ==> r == before)
      && forall i ::
           (0 <= i < |sections| && Contains(sections[i], pos)
            && (forall k :: i < k < |sections| ==> !Contains(sections[k], pos))) ==>
             && |r| == |hrefs|
             && ("#" + sections[i].id !in hrefs ==> forall j :: 0 <= j < |r| ==> !r[j])
             && forall j :: 0 <= j < |r| ==>
                  (r[j] <==> hrefs[j] == "#" + sections[i].id
                             && forall k :: 0 <= k < j ==> hrefs[k] != "#" + sections[i].id)
  {
  }

  /** The document and localStorage as js/script.js sees and changes them. */
  class Page {
    const layout: Layout
    var storage: map<string, string>         // localStorage
    var htmlTheme: string                    // <html>'s data-theme attribute
    var themeButtonText: string
    var themeButtonLabel: string             // its aria-label
    var navOpen: bool                        // `.nav-links` has class nav-open
    var ariaExpanded: string                 // `.nav-toggle`'s aria-expanded
    var linkActive: seq<bool>                // which `.nav-links a` have class active
    var scrollTopVisible: bool               // `#scroll-top` has class visible

    ghost predicate Valid()
      reads this
    {
      |linkActive| == |layout.linkHrefs|
    }

    /** The button shows the theme on <html>, and storage would restore that theme. */
    ghost predicate ShowsTheme()
      reads this
    {
      && InitialTheme(storage) == htmlTheme
      && (layout.hasThemeButton ==> themeButtonText == ThemeIcon(htmlTheme) && themeButtonLabel == ThemeLabel(htmlTheme))
    }

    /** The statements the script runs at load: the theme is read from storage and set on
        <html>, the button shows it, and the nav links are highlighted once. */
    constructor (layout: Layout, storage: map<string, string>, active: seq<bool>, pageYOffset: int)
      requires |active| == |layout.linkHrefs|
      ensures Valid() && ShowsTheme()
      ensures this.layout == layout && this.storage == storage
      ensures htmlTheme == InitialTheme(storage)
      ensures !navOpen && ariaExpanded == "false" && !scrollTopVisible
      ensures linkActive == HighlightAfter(layout.linkHrefs, layout.sections, active, pageYOffset + 100)
    {
      this.layout := layout;
      this.storage := storage;
      htmlTheme := OrElse(Get(storage, ThemeKey), "dark");
      themeButtonText := "";
      themeButtonLabel := "";
      navOpen := false;
      ariaExpanded := "false";
      linkActive := active;
      scrollTopVisible := false;
      new;
      UpdateThemeIcon();
      HighlightNavLink(pageYOffset);
    }

    /** updateThemeIcon: icon and label for the theme on <html>, when the button exists. */
    method UpdateThemeIcon()
      modifies this`themeButtonText, this`themeButtonLabel
      ensures layout.hasThemeButton ==> themeButtonText == ThemeIcon(htmlTheme) && themeButtonLabel == ThemeLabel(htmlTheme)
      ensures !layout.hasThemeButton ==> themeButtonText == old(themeButtonText) && themeButtonLabel == old(themeButtonLabel)
    {
      var theme := htmlTheme;
      if layout.hasThemeButton {
        themeButtonText := if theme == "dark" then "☀️" else "🌙";
        themeButtonLabel := "Switch to " + (if theme == "dark" then "light" else "dark") + " mode";
      }
    }

    /** Click on `#theme-toggle`: the theme on <html> flips, is stored, and is shown. */
    method ThemeClick()
      modifies this`storage, this`htmlTheme, this`themeButtonText, this`themeButtonLabel
      ensures layout.hasThemeButton ==> htmlTheme == Flip(old(htmlTheme))
      ensures layout.hasThemeButton ==> storage == old(storage)[ThemeKey := htmlTheme]
      ensures layout.hasThemeButton ==> ShowsTheme()
      ensures !layout.hasThemeButton ==> unchanged(this)
    {
      if layout.hasThemeButton {
        var currentTheme := htmlTheme;
        var newTheme := if currentTheme == "dark" then "light" else "dark";
        htmlTheme := newTheme;
        storage := storage[ThemeKey := newTheme];
        UpdateThemeIcon();
      }
    }

    /** Click on `.nav-toggle`: the menu flips and aria-expanded follows. */
    method NavToggleClick()
      modifies this`navOpen, this`ariaExpanded
      ensures layout.hasNavToggle ==> navOpen == !old(navOpen) && ariaExpanded == BoolText(navOpen)
      ensures !layout.hasNavToggle ==> unchanged(this)
    {
      if layout.hasNavToggle {
        navOpen := !navOpen;
        var isOpen := navOpen;
        ariaExpanded := BoolText(isOpen);
      }
    }

    /** Click on a link inside `.nav-links`: the menu closes. */
    method NavLinkClick()
      modifies this`navOpen, this`ariaExpanded
      ensures !navOpen
      ensures layout.hasNavToggle ==> ariaExpanded == "false"
      ensures !layout.hasNavToggle ==> ariaExpanded == old(ariaExpanded)
    {
      navOpen := false;
      if layout.hasNavToggle {
        ariaExpanded := "false";
      }
    }

    /** Any click on the document: one with no `.topnav` ancestor closes an open menu. */
    method DocumentClick(insideTopnav: bool)
      modifies this`navOpen, this`ariaExpanded
      ensures !insideTopnav && old(navOpen) ==> !navOpen
      ensures !insideTopnav && old(navOpen) && layout.hasNavToggle ==> ariaExpanded == "false"
      ensures !layout.hasNavToggle ==> ariaExpanded == old(ariaExpanded)
      ensures insideTopnav || !old(navOpen) ==> unchanged(this)
    {
      if !insideTopnav && navOpen {
        navOpen := false;
        if layout.hasNavToggle {
          ariaExpanded := "false";
        }
      }
    }

    /** The inner forEach of highlightNavLink: every link loses class active. */
    method ClearActive()
      requires Valid()
      modifies this`linkActive
      ensures |linkActive| == |layout.linkHrefs|
      ensures forall j :: 0 <= j < |linkActive| ==> !linkActive[j]
    {
      for j := 0 to |linkActive|
        invariant |linkActive| == |layout.linkHrefs|
        invariant forall k :: 0 <= k < j ==> !linkActive[k]
      {
        linkActive := linkActive[j := false];
      }
    }

    /** highlightNavLink at the given scrollY. */
    method HighlightNavLink(scrollY: int)
      requires Valid()
      modifies this`linkActive
      ensures Valid()
      ensures linkActive == HighlightAfter(layout.linkHrefs, layout.sections, old(linkActive), scrollY + 100)
    {
      var scrollPosition := scrollY + 100;
      var sections := layout.sections;
      for i := 0 to |sections|
        invariant Valid()
        invariant linkActive == HighlightAfter(layout.linkHrefs, sections[..i], old(linkActive), scrollPosition)
      {
        assert sections[..i + 1][..i] == sections[..i];
        var section := sections[i];
        var navLink := FirstIndex(layout.linkHrefs, "#" + section.id);
        if scrollPosition >= section.top && scrollPosition < section.top + section.height {
          ClearActive();
          if navLink.Some? {
            linkActive := linkActive[navLink.value := true];
          }
          assert linkActive == Highlighted(layout.linkHrefs, "#" + section.id);
        }
      }
      assert sections[..|sections|] == sections;
    }

    /** The scroll-to-top rule: `#scroll-top` has class visible iff pageYOffset > 300. */
    method ScrollTopOnScroll(pageYOffset: int)
      modifies this`scrollTopVisible
      ensures layout.hasScrollTop ==> (scrollTopVisible <==> pageYOffset > 300)
      ensures !layout.hasScrollTop ==> scrollTopVisible == old(scrollTopVisible)
    {
      if layout.hasScrollTop {
        if pageYOffset > 300 {
          scrollTopVisible := true;
        } else {
          scrollTopVisible := false;
        }
      }
    }
  }

  function Min(a: int, b: int): int
  {
    if a < b then a else b
  }

  /** The hero subtitle's typing effect: the text typed so far is always a prefix of
      the original text. */
  class Typewriter {
    const originalText: string
    var text: string                         // the subtitle's textContent
    var charIndex: nat

    ghost predicate Valid()
      reads this
    {
      charIndex <= |originalText| && text == originalText[..charIndex]
    }

    /** The subtitle's text is kept and cleared before typing starts. */
    constructor (subtitle: string)
      ensures Valid()
      ensures originalText == subtitle && text == "" && charIndex == 0
    {
      originalText := subtitle;
      text := "";
      charIndex := 0;
    }

    /** typeNextChar: one more character of the original text, until all are typed. */
    method TypeNextChar()
      requires Valid()
      modifies this`text, this`charIndex
      ensures Valid()
      ensures old(charIndex) < |originalText| ==>
        charIndex == old(charIndex) + 1 && text == old(text) + [originalText[old(charIndex)]]
      ensures old(charIndex) >= |originalText| ==> unchanged(this)
    {
      if charIndex < |originalText| {
        text := text + [originalText[charIndex]];
        charIndex := charIndex + 1;
      }
    }
  }

  /** The subtitle after the typing callback has run `steps` times: the first
      min(steps, |subtitle|) characters, and the whole subtitle once steps reaches its length. */
  method TypeFor(subtitle: string, steps: nat) returns (shown: string)
    ensures shown == subtitle[..Min(steps, |subtitle|)]
    ensures steps >= |subtitle| ==> shown == subtitle
  {
    var typer := new Typewriter(subtitle);
    for i := 0 to steps
      invariant typer.Valid() && typer.originalText == subtitle
      invariant typer.charIndex == Min(i, |subtitle|)
    {
      typer.TypeNextChar();
    }
    shown := typer.text;
    assert subtitle[..|subtitle|] == subtitle;
  }

  /** Load a page whose stored theme is start and click the theme button n times: the
      page shows start after an even number of clicks and the other theme after an odd number. */
  method ClickRepeatedly(layout: Layout, start: string, n: nat) returns (shown: string)
    requires layout.hasThemeButton
    requires start == "dark" || start == "light"
    ensures shown == if n % 2 == 0 then start else Flip(start)
  {
    var page := new Page(layout, map[ThemeKey := start], seq(|layout.linkHrefs|, _ => false), 0);
    for i := 0 to n
      invariant page.htmlTheme == if i % 2 == 0 then start else Flip(start)
    {
      page.ThemeClick();
    }
    shown := page.htmlTheme;
  }

  /** Load, click the theme button, load again with the storage the click left: the
      reloaded page shows the theme the click chose. */
  method ClickThenReload(layout: Layout, storage: map<string, string>) returns (clicked: string, reloaded: string)
    requires layout.hasThemeButton
    ensures clicked == Flip(InitialTheme(storage))
    ensures reloaded == clicked
  {
    var none := seq(|layout.linkHrefs|, _ => false);
    var page := new Page(layout, storage, none, 0);
    page.ThemeClick();
    clicked := page.htmlTheme;
    var again := new Page(layout, page.storage, none, 0);
    reloaded := again.htmlTheme;
  }
}
