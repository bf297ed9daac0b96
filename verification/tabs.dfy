/** The tab switcher of `initTabs`: a row of tab buttons of which one carries
    `aria-selected="true"`, the switcher's `--index` custom property that
    positions the selected tab's background, and the body's theme class.
    A click on a tab runs `changeThemes` and then `changeTabs` (the order in
    which the two listeners are registered). */
module Tabs {
  import opened Wrappers
  import ClassList

  const ThemeRs: string := "theme-rs"
  const ThemeOsrs: string := "theme-osrs"

  /** The classes `changeThemes` always removes from the body */
  const ThemeClasses: set<string> := {ThemeRs, ThemeOsrs}

  datatype Direction = Left | Right

  /** A tab button: the panel class it controls (`data-controls`), the body
      theme it selects (`data-theme`), and its `aria-selected` state */
  datatype Tab = Tab(controls: string, theme: string, selected: bool)

  /** The switcher: its tab children in document order and the value of its
      inline `--index` property (None until the first switch sets it) */
  datatype Switcher = Switcher(tabs: seq<Tab>, index: Option<int>)

  /** The panel transition a switch starts: panels controlled by tab `from`
      slide out and those controlled by tab `to` slide in, towards `direction` */
  datatype Slide = Slide(from: nat, to: nat, direction: Direction)

  datatype TabChange = TabChange(switcher: Switcher, slide: Option<Slide>)

  datatype Page = Page(switcher: Switcher, body: seq<string>)

  datatype ClickOutcome = ClickOutcome(page: Page, slide: Option<Slide>)

  predicate HasSelection(tabs: seq<Tab>) {
    exists i :: 0 <= i < |tabs| && tabs[i].selected
  }

  /** Tab `k` is selected and no other tab is */
  predicate SelectedOnly(tabs: seq<Tab>, k: nat) {
    && k < |tabs|
    && tabs[k].selected
    && forall i :: 0 <= i < |tabs| ==> (tabs[i].selected <==> i == k)
  }

  /** The switcher's invariant: exactly one tab is selected, and an inline
      `--index`, once set, points at it */
  predicate Consistent(s: Switcher) {
    exists k: nat :: k < |s.tabs| && SelectedOnly(s.tabs, k) && (s.index.Some? ==> s.index.value == k)
  }

  /** The current tab as the document query finds it: the first selected
      tab in document order */
  function FirstSelected(tabs: seq<Tab>): (k: nat)
    requires HasSelection(tabs)
    ensures k < |tabs| && tabs[k].selected
    ensures forall i :: 0 <= i < k ==> !tabs[i].selected
  {
    if tabs[0].selected then 0
    else
      assert forall i :: 1 <= i < |tabs| ==> tabs[1..][i - 1] == tabs[i];
      1 + FirstSelected(tabs[1..])
  }

  /** Under the invariant the first selected tab is the selected tab */
  lemma {:induction false} FirstSelectedIsOnly(tabs: seq<Tab>, k: nat)
    requires SelectedOnly(tabs, k)
    ensures FirstSelected(tabs) == k
  {
  }

  /** The slide direction for a move from tab `curr` to tab `next` */
  function SlideDirection(curr: int, next: int): (d: Direction)
    ensures d == Left <==> curr > next
  {
    if curr > next then Left else Right
  }

  /** Moving back reverses the direction of moving forth */
  lemma {:induction false} SlideDirectionReverses(a: int, b: int)
    requires a != b
    ensures SlideDirection(a, b) != SlideDirection(b, a)
  {
  }

  /** `changeTabs` for a click on tab `next`: nothing happens when it is the
      current tab; otherwise the current tab is deselected, `next` selected,
      `--index` set to `next`, and a slide in the direction given by the two
      indices is started */
  function ChangeTabs(s: Switcher, next: nat): (r: TabChange)
    requires next < |s.tabs|
    requires HasSelection(s.tabs)
    ensures |r.switcher.tabs| == |s.tabs|
    ensures forall i :: 0 <= i < |s.tabs| ==>
              r.switcher.tabs[i].controls == s.tabs[i].controls
              && r.switcher.tabs[i].theme == s.tabs[i].theme
    ensures r.switcher.tabs[next].selected
    ensures FirstSelected(s.tabs) == next ==> r.switcher == s && r.slide == None
    ensures FirstSelected(s.tabs) != next ==>
              var curr := FirstSelected(s.tabs);
              && !r.switcher.tabs[curr].selected
              && (forall i :: 0 <= i < |s.tabs| && i != curr && i != next ==>
                    r.switcher.tabs[i] == s.tabs[i])
              && r.switcher.index == Some(next as int)
              && r.slide.Some?
              && r.slide.value.from == curr && r.slide.value.to == next
              && (r.slide.value.direction == Left <==> curr > next)
  {
    var curr := FirstSelected(s.tabs);
    if curr == next then TabChange(s, None)
    else
      var tabs := s.tabs[curr := s.tabs[curr].(selected := false)]
                        [next := s.tabs[next].(selected := true)];
      TabChange(Switcher(tabs, Some(next as int)), Some(Slide(curr, next, SlideDirection(curr, next))))
  }

  /** A click keeps the invariant, and afterwards the clicked tab is the only
      selected one and any inline `--index` names it */
  lemma {:induction false} ChangeTabsKeepsConsistent(s: Switcher, next: nat)
    requires next < |s.tabs|
    requires Consistent(s)
    ensures HasSelection(s.tabs)
    ensures var r := ChangeTabs(s, next).switcher;
            SelectedOnly(r.tabs, next) && (r.index.Some? ==> r.index.value == next) && Consistent(r)
  {
    var k: nat :| k < |s.tabs| && SelectedOnly(s.tabs, k) && (s.index.Some? ==> s.index.value == k);
    FirstSelectedIsOnly(s.tabs, k);
    var r := ChangeTabs(s, next).switcher;
    assert SelectedOnly(r.tabs, next);
  }

  /** Switching to another tab and back restores every tab's state and
      slides the opposite way */
  lemma {:induction false} SwitchBackRestores(s: Switcher, k: nat, next: nat)
    requires SelectedOnly(s.tabs, k)
    requires next < |s.tabs| && next != k
    ensures var there := ChangeTabs(s, next);
            var back := ChangeTabs(there.switcher, k);
            && back.switcher.tabs == s.tabs
            && back.switcher.index == Some(k as int)
            && there.slide.Some? && back.slide.Some?
            && there.slide.value.direction != back.slide.value.direction
  {
  }

  /** `changeThemes`: the body loses both theme classes and gains the
      clicked tab's theme */
  function ChangeThemes(body: seq<string>, theme: string): (r: seq<string>)
    requires ClassList.IsToken(theme)
    ensures forall c :: c in r <==> (c in body && c !in ThemeClasses) || c == theme
    ensures ClassList.IsTokenList(body) ==> ClassList.IsTokenList(r)
  {
    ClassList.Add(ClassList.Remove(body, ThemeClasses), theme)
  }

  /** Classes other than the themes and the clicked theme keep their order */
  lemma {:induction false} ChangeThemesKeepsOthers(body: seq<string>, theme: string)
    requires ClassList.IsToken(theme)
    ensures ClassList.Remove(ChangeThemes(body, theme), ThemeClasses + {theme})
            == ClassList.Remove(body, ThemeClasses + {theme})
  {
    var kept := ClassList.Remove(body, ThemeClasses);
    ClassList.RemoveTwice(body, ThemeClasses, ThemeClasses + {theme});
    if theme !in kept {
      ClassList.RemoveAppend(kept, [theme], ThemeClasses + {theme});
      assert ClassList.Remove([theme], ThemeClasses + {theme}) == [];
    }
  }

  /** A second click on the same tab leaves the body's classes as they are */
  lemma {:induction false} ChangeThemesIdempotent(body: seq<string>, theme: string)
    requires ClassList.IsToken(theme)
    ensures ChangeThemes(ChangeThemes(body, theme), theme) == ChangeThemes(body, theme)
  {
    var kept := ClassList.Remove(body, ThemeClasses);
    var once := ChangeThemes(body, theme);
    ClassList.RemoveTwice(body, ThemeClasses, ThemeClasses);
    if theme in ThemeClasses {
      if theme !in kept {
        ClassList.RemoveAppend(kept, [theme], ThemeClasses);
        assert ClassList.Remove([theme], ThemeClasses) == [];
      }
      assert ClassList.Remove(once, ThemeClasses) == kept;
    } else {
      assert forall i :: 0 <= i < |once| ==> once[i] in once;
      ClassList.RemoveAbsent(once, ThemeClasses);
    }
  }

  /** When the earlier theme is one of the two theme classes, only the latest
      click decides the body's classes */
  lemma {:induction false} ChangeThemesLastWins(body: seq<string>, first: string, second: string)
    requires ClassList.IsToken(first) && ClassList.IsToken(second)
    requires first in ThemeClasses
    ensures ChangeThemes(ChangeThemes(body, first), second) == ChangeThemes(body, second)
  {
    var kept := ClassList.Remove(body, ThemeClasses);
    ClassList.RemoveTwice(body, ThemeClasses, ThemeClasses);
    if first !in kept {
      ClassList.RemoveAppend(kept, [first], ThemeClasses);
      assert ClassList.Remove([first], ThemeClasses) == [];
    }
  }

  /** What the page requires of a click target: a tab in range, some tab
      currently selected, and a theme `classList.add` accepts */
  predicate CanClick(p: Page, next: nat) {
    && next < |p.switcher.tabs|
    && HasSelection(p.switcher.tabs)
    && ClassList.IsToken(p.switcher.tabs[next].theme)
  }

  /** One click on tab `next`: `changeThemes` then `changeTabs` */
  function Click(p: Page, next: nat): (r: ClickOutcome)
    requires CanClick(p, next)
    ensures |r.page.switcher.tabs| == |p.switcher.tabs|
    ensures r.page.switcher.tabs[next].selected
    ensures r.slide.None? <==> FirstSelected(p.switcher.tabs) == next
    ensures p.switcher.tabs[next].theme in r.page.body
    ensures forall c :: c in ThemeClasses && c in r.page.body ==> c == p.switcher.tabs[next].theme
    ensures ClassList.IsTokenList(p.body) ==> ClassList.IsTokenList(r.page.body)
  {
    var change := ChangeTabs(p.switcher, next);
    ClickOutcome(Page(change.switcher, ChangeThemes(p.body, p.switcher.tabs[next].theme)), change.slide)
  }

  /** Every tab's theme is a token `classList.add` accepts */
  predicate ThemesAreTokens(tabs: seq<Tab>) {
    forall i :: 0 <= i < |tabs| ==> ClassList.IsToken(tabs[i].theme)
  }

  /** A sequence of clicks on the tabs numbered in `clicks` */
  function Run(p: Page, clicks: seq<nat>): (r: Page)
    requires HasSelection(p.switcher.tabs) && ThemesAreTokens(p.switcher.tabs)
    requires forall i :: 0 <= i < |clicks| ==> clicks[i] < |p.switcher.tabs|
    ensures |r.switcher.tabs| == |p.switcher.tabs|
    ensures forall i :: 0 <= i < |p.switcher.tabs| ==>
              r.switcher.tabs[i].theme == p.switcher.tabs[i].theme
              && r.switcher.tabs[i].controls == p.switcher.tabs[i].controls
    ensures HasSelection(r.switcher.tabs) && ThemesAreTokens(r.switcher.tabs)
    ensures ClassList.IsTokenList(p.body) ==> ClassList.IsTokenList(r.body)
    decreases |clicks|
  {
    if |clicks| == 0 then p
    else Run(Click(p, clicks[0]).page, clicks[1..])
  }

  /** After any non-empty run of clicks on a consistent page the switcher is
      still consistent, the last clicked tab is the selected one, and when
      every tab's theme is one of the two theme classes the body's classes
      are those a single click on that tab would have produced */
  lemma {:induction false} RunSelectsLastClicked(p: Page, clicks: seq<nat>)
    requires Consistent(p.switcher) && ThemesAreTokens(p.switcher.tabs)
    requires forall i :: 0 <= i < |clicks| ==> clicks[i] < |p.switcher.tabs|
    requires |clicks| > 0
    decreases |clicks|
    ensures var r := Run(p, clicks);
            var last := clicks[|clicks| - 1];
            && Consistent(r.switcher)
            && SelectedOnly(r.switcher.tabs, last)
            && ((forall i :: 0 <= i < |p.switcher.tabs| ==> p.switcher.tabs[i].theme in ThemeClasses) ==>
                  r.body == ChangeThemes(p.body, p.switcher.tabs[last].theme))
  {
    ChangeTabsKeepsConsistent(p.switcher, clicks[0]);
    var q := Click(p, clicks[0]).page;
    if |clicks| > 1 {
      RunSelectsLastClicked(q, clicks[1..]);
      var last := clicks[|clicks| - 1];
      assert clicks[1..][|clicks| - 2] == last;
      if forall i :: 0 <= i < |p.switcher.tabs| ==> p.switcher.tabs[i].theme in ThemeClasses {
        ChangeThemesLastWins(p.body, p.switcher.tabs[clicks[0]].theme, p.switcher.tabs[last].theme);
      }
    }
  }
}
