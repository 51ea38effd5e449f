/** The theme list page (src/renderer/pages/extensionbeta/index.tsx): the tag
    filter, the match-first ordering, the enabled/disabled split, the tag
    counts, the filter badge and the two drop-down menus. */
module ThemeList {
  import opened Wrappers
  import opened Seqs

  /** The fields of a theme the page looks at. `tags` is optional. */
  datatype Theme = Theme(name: string, author: string, tags: Option<seq<string>>)

  const DefaultTheme := "Default"

  function TagsOf(t: Theme): seq<string> {
    if t.tags.Some? then t.tags.value else []
  }

  // ---------------------------------------------------------------------------
  // Selected tags

  /** `handleTagChange`: copy the set, remove the tag if present, add it otherwise. */
  function ToggleTag(selected: set<string>, tag: string): (r: set<string>)
    ensures tag in r <==> tag !in selected
    ensures forall u :: u != tag ==> (u in r <==> u in selected)
  {
    if tag in selected then selected - {tag} else selected + {tag}
  }

  lemma ToggleTagTwice(selected: set<string>, tag: string)
    ensures ToggleTag(ToggleTag(selected, tag), tag) == selected
  {
  }

  /** `item.tags?.some(tag => tags.has(tag))`. */
  predicate HasSelectedTag(t: Theme, selected: set<string>) {
    exists i :: 0 <= i < |TagsOf(t)| && TagsOf(t)[i] in selected
  }

  /** `filterThemesByTags`: everything when no tag is selected; otherwise the
      themes carrying a selected tag, in list order. */
  function FilterThemesByTags(themes: seq<Theme>, selected: set<string>): (r: seq<Theme>)
    ensures selected == {} ==> r == themes
    ensures selected != {} ==> forall i :: 0 <= i < |r| ==> r[i] in themes && HasSelectedTag(r[i], selected)
    ensures selected != {} ==> forall i :: 0 <= i < |themes| && HasSelectedTag(themes[i], selected) ==> themes[i] in r
    ensures selected != {} ==> r == Filter(themes, (t: Theme) => HasSelectedTag(t, selected))
  {
    if |selected| == 0 then themes
    else
      FilterMembers(themes, (t: Theme) => HasSelectedTag(t, selected));
      Filter(themes, (t: Theme) => HasSelectedTag(t, selected))
  }

  // ---------------------------------------------------------------------------
  // Match-first ordering

  /** The comparator `a.matches === b.matches ? 0 : a.matches ? -1 : 1`
      orders by this key, largest first. */
  function MatchKey(m: Theme -> bool): Theme -> int {
    (t: Theme) => if m(t) then 1 else 0
  }

  /** `.sort(...)` with that comparator. */
  function SortByMatch(xs: seq<Theme>, m: Theme -> bool): seq<Theme> {
    SortDesc(xs, MatchKey(m))
  }

  /** Inserting into themes none of which matches. */
  lemma {:induction false} InsertIntoUnmatched(x: Theme, b: seq<Theme>, m: Theme -> bool)
    requires forall i :: 0 <= i < |b| ==> !m(b[i])
    ensures InsertDesc(x, b, MatchKey(m)) == if m(x) then [x] + b else b + [x]
  {
    if b != [] && !m(x) {
      InsertIntoUnmatched(x, b[1..], m);
      assert [b[0]] + (b[1..] + [x]) == b + [x];
    }
  }

  /** Inserting into a matching group followed by a group that does not
      match: a matching theme goes between the groups, any other at the end. */
  lemma {:induction false} InsertIntoPartition(x: Theme, a: seq<Theme>, b: seq<Theme>, m: Theme -> bool)
    requires forall i :: 0 <= i < |a| ==> m(a[i])
    requires forall i :: 0 <= i < |b| ==> !m(b[i])
    ensures InsertDesc(x, a + b, MatchKey(m)) == a + (if m(x) then [x] + b else b + [x])
  {
    if a == [] {
      assert a + b == b;
      InsertIntoUnmatched(x, b, m);
    } else {
      var ab := a + b;
      assert ab[0] == a[0] && m(ab[0]);
      assert ab[1..] == a[1..] + b;
      InsertIntoPartition(x, a[1..], b, m);
      ConsConcat(a, if m(x) then [x] + b else b + [x]);
    }
  }

  lemma ConsConcat(a: seq<Theme>, tail: seq<Theme>)
    requires a != []
    ensures [a[0]] + (a[1..] + tail) == a + tail
  {
    assert a == [a[0]] + a[1..];
  }

  /** The ordering puts the matching themes first and the others after them,
      each group in its original order. */
  lemma {:induction false} SortByMatchIsPartition(xs: seq<Theme>, m: Theme -> bool)
    ensures SortByMatch(xs, m) == Filter(xs, m) + Filter(xs, Not(m))
  {
    if xs != [] {
      var init, x := xs[..|xs| - 1], xs[|xs| - 1];
      SortByMatchIsPartition(init, m);
      var a, b := Filter(init, m), Filter(init, Not(m));
      assert SortByMatch(xs, m) == InsertDesc(x, a + b, MatchKey(m));
      PartitionMembers(init, m);
      InsertIntoPartition(x, a, b, m);
      SnocFilters(xs, m);
    }
  }

  /** The two groups of a list hold its matching and its other themes. */
  lemma PartitionMembers(xs: seq<Theme>, m: Theme -> bool)
    ensures forall i :: 0 <= i < |Filter(xs, m)| ==> m(Filter(xs, m)[i])
    ensures forall i :: 0 <= i < |Filter(xs, Not(m))| ==> !m(Filter(xs, Not(m))[i])
  {
    var b := Filter(xs, Not(m));
    forall i | 0 <= i < |b|
      ensures !m(b[i])
    {
      assert Not(m)(b[i]);
    }
  }

  /** Both groups of a list with one more theme at the end. */
  lemma SnocFilters(xs: seq<Theme>, m: Theme -> bool)
    requires xs != []
    ensures var init, x := xs[..|xs| - 1], xs[|xs| - 1];
      Filter(xs, m) + Filter(xs, Not(m))
      == Filter(init, m) + (if m(x) then [x] + Filter(init, Not(m)) else Filter(init, Not(m)) + [x])
  {
    var init, x := xs[..|xs| - 1], xs[|xs| - 1];
    assert xs == init + [x];
    FilterSnoc(init, x, m);
    FilterSnoc(init, x, Not(m));
    var a, b := Filter(init, m), Filter(init, Not(m));
    if m(x) {
      assert (a + [x]) + b == a + ([x] + b);
    } else {
      assert !Not(m)(x) == m(x);
    }
  }

  lemma FilterSnoc(init: seq<Theme>, x: Theme, p: Theme -> bool)
    ensures Filter(init + [x], p) == Filter(init, p) + if p(x) then [x] else []
  {
    FilterAppend(init, [x], p);
    assert [x][1..] == [];
  }

  /** The themes the comparator puts last. */
  function Not(m: Theme -> bool): Theme -> bool {
    (t: Theme) => !m(t)
  }

  predicate NotDefault(t: Theme) {
    t.name != DefaultTheme
  }

  /** `filterAndSortThemes`; `m` is the search match of each theme (the
      substring and similarity tests on name and author). */
  function FilterAndSortThemes(themes: seq<Theme>, m: Theme -> bool): (r: seq<Theme>)
    ensures forall i :: 0 <= i < |r| ==> r[i].name != DefaultTheme
    ensures r == Filter(Filter(themes, NotDefault), m)
              + Filter(Filter(themes, NotDefault), Not(m))
    ensures multiset(r) == multiset(Filter(themes, NotDefault))
  {
    var kept := Filter(themes, NotDefault);
    SortByMatchIsPartition(kept, m);
    FilterSplit(kept, m, Not(m));
    FilterMembers(kept, m);
    FilterMembers(kept, Not(m));
    SortByMatch(kept, m)
  }

  // ---------------------------------------------------------------------------
  // Enabled and disabled lists

  /** The list both page sections start from. */
  function Filtered(themes: seq<Theme>, selected: set<string>, m: Theme -> bool): seq<Theme> {
    FilterAndSortThemes(FilterThemesByTags(themes, selected), m)
  }

  /** `getFilteredThemes(themeType)` as written: the themes named
      `currentThemeName` when `themeType` equals it, all others otherwise. */
  function GetFilteredThemes(themes: seq<Theme>, selected: set<string>, m: Theme -> bool,
                             current: string, themeType: string): (r: seq<Theme>)
    ensures themeType == current ==> forall i :: 0 <= i < |r| ==> r[i].name == current
    ensures themeType != current ==> forall i :: 0 <= i < |r| ==> r[i].name != current
  {
    var filtered := Filtered(themes, selected, m);
    if themeType == current then Filter(filtered, (t: Theme) => t.name == current)
    else Filter(filtered, (t: Theme) => t.name != current)
  }

  /** `enabledThemes`. */
  function EnabledThemes(themes: seq<Theme>, selected: set<string>, m: Theme -> bool, current: string): seq<Theme> {
    GetFilteredThemes(themes, selected, m, current, current)
  }

  /** `disabledThemes` as written: `getFilteredThemes('other')`. */
  function DisabledThemesAsWritten(themes: seq<Theme>, selected: set<string>, m: Theme -> bool, current: string): seq<Theme> {
    GetFilteredThemes(themes, selected, m, current, "other")
  }

  /** With the current theme named `other`, the disabled list as written is the
      enabled list: the current theme is shown in both sections. */
  lemma DisabledAsWrittenShowsCurrent()
    ensures var themes := [Theme("other", "someone", None)];
      var m := (t: Theme) => true;
      && EnabledThemes(themes, {}, m, "other") == themes
      && DisabledThemesAsWritten(themes, {}, m, "other") == themes
  {
    var themes := [Theme("other", "someone", None)];
    var m := (t: Theme) => true;
    assert Filter(themes, NotDefault) == themes;
    assert Filter(themes, m) == themes;
    assert Filter(themes, Not(m)) == [];
    assert Filtered(themes, {}, m) == themes;
  }

  /** The disabled list as intended: every filtered theme not named
      `currentThemeName`. */
  function DisabledThemes(themes: seq<Theme>, selected: set<string>, m: Theme -> bool, current: string): (r: seq<Theme>)
    ensures forall i :: 0 <= i < |r| ==> r[i].name != current
    ensures current != "other" ==> r == DisabledThemesAsWritten(themes, selected, m, current)
  {
    Filter(Filtered(themes, selected, m), (t: Theme) => t.name != current)
  }

  /** The two sections partition the filtered list: every filtered theme is in
      exactly one of them, as often as it occurs. */
  lemma EnabledDisabledPartition(themes: seq<Theme>, selected: set<string>, m: Theme -> bool, current: string)
    ensures multiset(EnabledThemes(themes, selected, m, current))
          + multiset(DisabledThemes(themes, selected, m, current))
         == multiset(Filtered(themes, selected, m))
  {
    FilterSplit(Filtered(themes, selected, m), (t: Theme) => t.name == current, (t: Theme) => t.name != current);
  }

  /** What the page shows: `filteredEnabledThemes` and `filteredDisabledThemes`. */
  datatype Sections = Sections(enabled: seq<Theme>, disabled: seq<Theme>)

  /** The sections as written: the disabled one comes from
      `getFilteredThemes('other')`, which is the intended list for every
      current theme not named `other`. */
  function ShownSections(themes: seq<Theme>, selected: set<string>, m: Theme -> bool,
                         current: string, hideEnabled: bool): (r: Sections)
    ensures hideEnabled ==> r.enabled == []
    ensures !hideEnabled ==> r.enabled == EnabledThemes(themes, selected, m, current)
    ensures r.disabled == DisabledThemesAsWritten(themes, selected, m, current)
    ensures current != "other" ==> r.disabled == DisabledThemes(themes, selected, m, current)
  {
    var enabled := EnabledThemes(themes, selected, m, current);
    Sections(if hideEnabled then [] else enabled, DisabledThemesAsWritten(themes, selected, m, current))
  }

  /** Hiding the enabled section does not change the disabled one. */
  lemma HideEnabledKeepsDisabled(themes: seq<Theme>, selected: set<string>, m: Theme -> bool, current: string)
    ensures ShownSections(themes, selected, m, current, true).disabled
         == ShownSections(themes, selected, m, current, false).disabled
  {
  }

  /** As written, a current theme named `other` is shown in both sections. */
  lemma ShownSectionsRepeatOther()
    ensures var themes := [Theme("other", "someone", None)];
      ShownSections(themes, {}, (t: Theme) => true, "other", false) == Sections(themes, themes)
  {
    DisabledAsWrittenShowsCurrent();
  }

  // ---------------------------------------------------------------------------
  // Tags and their counts

  /** `themes.flatMap(item => item.tags || [])`. */
  function FlatTags(themes: seq<Theme>): seq<string> {
    if themes == [] then [] else TagsOf(themes[0]) + FlatTags(themes[1..])
  }

  /** Some theme of the list carries `tag`. */
  predicate CarriedBy(themes: seq<Theme>, tag: string) {
    exists i :: 0 <= i < |themes| && tag in TagsOf(themes[i])
  }

  lemma CarriedByTail(themes: seq<Theme>, tag: string)
    requires themes != [] && CarriedBy(themes[1..], tag)
    ensures CarriedBy(themes, tag)
  {
    var i :| 0 <= i < |themes[1..]| && tag in TagsOf(themes[1..][i]);
    assert themes[1..][i] == themes[i + 1];
  }

  /** Every flattened tag is a tag of some theme. */
  lemma {:induction false} FlatTagsSound(themes: seq<Theme>)
    ensures forall k :: 0 <= k < |FlatTags(themes)| ==> CarriedBy(themes, FlatTags(themes)[k])
  {
    if themes != [] {
      var head, rest := TagsOf(themes[0]), FlatTags(themes[1..]);
      assert FlatTags(themes) == head + rest;
      FlatTagsSound(themes[1..]);
      forall k | 0 <= k < |head + rest|
        ensures CarriedBy(themes, (head + rest)[k])
      {
        if k < |head| {
          assert (head + rest)[k] in TagsOf(themes[0]);
        } else {
          assert (head + rest)[k] == rest[k - |head|];
          CarriedByTail(themes, rest[k - |head|]);
        }
      }
    } else {
      assert FlatTags(themes) == [];
    }
  }

  /** Every tag of every theme is in the flattened list. */
  lemma {:induction false} FlatTagsComplete(themes: seq<Theme>)
    ensures forall i, j :: 0 <= i < |themes| && 0 <= j < |TagsOf(themes[i])| ==>
      TagsOf(themes[i])[j] in FlatTags(themes)
  {
    if themes != [] {
      var head, rest := TagsOf(themes[0]), FlatTags(themes[1..]);
      assert FlatTags(themes) == head + rest;
      FlatTagsComplete(themes[1..]);
      forall i, j | 0 <= i < |themes| && 0 <= j < |TagsOf(themes[i])|
        ensures TagsOf(themes[i])[j] in head + rest
      {
        if i > 0 {
          assert themes[i] == themes[1..][i - 1];
          assert TagsOf(themes[i])[j] in rest;
        } else {
          assert (head + rest)[j] == head[j];
        }
      }
    }
  }

  /** `Array.from(new Set(xs))`: first occurrences, in order. */
  function Dedup(xs: seq<string>): (r: seq<string>)
    ensures forall i, j :: 0 <= i < j < |r| ==> r[i] != r[j]
    ensures forall k :: 0 <= k < |r| ==> r[k] in xs
    ensures forall k :: 0 <= k < |xs| ==> xs[k] in r
  {
    if xs == [] then []
    else
      var init := xs[..|xs| - 1];
      var d := Dedup(init);
      assert forall k :: 0 <= k < |init| ==> init[k] == xs[k];
      if xs[|xs| - 1] in d then d else d + [xs[|xs| - 1]]
  }

  /** `allTags`: every tag of every theme, once each. */
  function AllTags(themes: seq<Theme>): (r: seq<string>)
    ensures forall i, j :: 0 <= i < j < |r| ==> r[i] != r[j]
    ensures forall k :: 0 <= k < |r| ==> exists i :: 0 <= i < |themes| && r[k] in TagsOf(themes[i])
    ensures forall i, j :: 0 <= i < |themes| && 0 <= j < |TagsOf(themes[i])| ==> TagsOf(themes[i])[j] in r
  {
    FlatTagsSound(themes);
    FlatTagsComplete(themes);
    Dedup(FlatTags(themes))
  }

  /** `item.tags?.includes(tag)`. */
  predicate HasTag(t: Theme, tag: string) {
    tag in TagsOf(t)
  }

  /** `themes.filter(item => item.tags?.includes(tag)).length`. */
  function CountWithTag(themes: seq<Theme>, tag: string): nat {
    |Filter(themes, (t: Theme) => HasTag(t, tag))|
  }

  /** Every listed tag is carried by at least one theme, and by no more than
      there are themes. */
  lemma TagCountBounds(themes: seq<Theme>, tag: string)
    requires tag in AllTags(themes)
    ensures 1 <= CountWithTag(themes, tag) <= |themes|
  {
    var k :| 0 <= k < |AllTags(themes)| && AllTags(themes)[k] == tag;
    var i :| 0 <= i < |themes| && tag in TagsOf(themes[i]);
    FilterMembers(themes, (t: Theme) => HasTag(t, tag));
    assert themes[i] in Filter(themes, (t: Theme) => HasTag(t, tag));
  }

  /** `tagCounts`: the `reduce` that fills one entry per listed tag. */
  method TagCounts(themes: seq<Theme>, allTags: seq<string>) returns (counts: map<string, nat>)
    ensures counts.Keys == set k | 0 <= k < |allTags| :: allTags[k]
    ensures forall tag :: tag in counts ==> counts[tag] == CountWithTag(themes, tag)
  {
    counts := map[];
    var i := 0;
    while i < |allTags|
      invariant 0 <= i <= |allTags|
      invariant counts.Keys == set k | 0 <= k < i :: allTags[k]
      invariant forall tag :: tag in counts ==> counts[tag] == CountWithTag(themes, tag)
    {
      counts := counts[allTags[i] := CountWithTag(themes, allTags[i])];
      i := i + 1;
    }
  }

  // ---------------------------------------------------------------------------
  // The filter badge and the menus

  /** `activeTagCount`. */
  function ActiveTagCount(selected: set<string>, hideEnabled: bool): nat {
    |selected| + if hideEnabled then 1 else 0
  }

  /** The badge on the filter button: hidden at 0, `9+` above 9, else the digit. */
  function BadgeLabel(count: nat): (r: Option<string>)
    ensures r.None? <==> count == 0
    ensures count > 9 ==> r == Some("9+")
    ensures 0 < count <= 9 ==> r == Some(['0' + count as char])
  {
    if count == 0 then None
    else if count > 9 then Some("9+")
    else Some(['0' + count as char])
  }

  /** The badge shows exactly when a tag is selected or enabled themes are hidden. */
  lemma BadgeShownIffFiltering(selected: set<string>, hideEnabled: bool)
    ensures BadgeLabel(ActiveTagCount(selected, hideEnabled)).Some? <==> selected != {} || hideEnabled
  {
  }

  datatype Menu = FilterMenu | OptionMenu

  /** `filterVisible` and `optionMenu`. */
  datatype Menus = Menus(filterVisible: bool, optionMenu: bool)

  /** `toggleMenu`: the chosen menu flips; opening it closes the other one. */
  function ToggleMenu(s: Menus, menu: Menu): (r: Menus)
    ensures !(r.filterVisible && r.optionMenu)
    ensures menu == FilterMenu ==> r.filterVisible == !s.filterVisible
    ensures menu == FilterMenu ==> r.optionMenu == (s.optionMenu && s.filterVisible)
    ensures menu == OptionMenu ==> r.optionMenu == !s.optionMenu
    ensures menu == OptionMenu ==> r.filterVisible == (s.filterVisible && s.optionMenu)
  {
    match menu
    case FilterMenu =>
      Menus(!s.filterVisible, if !s.filterVisible then false else s.optionMenu)
    case OptionMenu =>
      Menus(if !s.optionMenu then false else s.filterVisible, !s.optionMenu)
  }
}
