/** The theme page (src/renderer/pages/extensionbeta/route/extensionview.tsx):
    edits of the theme's settings file, the theme on/off switch, the
    remembered expanded state and the banner-height animation. */
module ThemeView {
  import opened Wrappers
  import HeightAnimation

  // ---------------------------------------------------------------------------
  // The settings file (`ThemeConfig`)

  /** The keys `handleChange` accepts. */
  datatype FieldKey = Name | Description | Input | Text | Title | BoolField | Id

  /** A field's value: the page writes strings and booleans. */
  datatype Value = Str(s: string) | Flag(b: bool)

  /** The keys of a button (`keyof Button`). */
  datatype ButtonKey = ButtonName | ButtonText

  datatype Button = Button(name: string, text: string)

  /** An item's scalar fields, and its optional `buttons` array. */
  datatype Item = Item(fields: map<FieldKey, Value>, buttons: Option<seq<Button>>)

  /** A section's scalar fields (`title`, and whatever `handleChange` sets) and its items. */
  datatype Section = Section(fields: map<FieldKey, Value>, items: seq<Item>)

  datatype ThemeConfig = ThemeConfig(sections: seq<Section>)

  /** A place in the configuration: a field of a section, of an item, or of a button. */
  datatype Location =
    | SectionField(section: int, key: FieldKey)
    | ItemField(section: int, item: int, key: FieldKey)
    | ButtonField(section: int, item: int, button: int, bkey: ButtonKey)

  function ButtonValue(b: Button, k: ButtonKey): string {
    match k
    case ButtonName => b.name
    case ButtonText => b.text
  }

  /** The value stored at a location, if the location exists and holds one. */
  function Lookup(c: ThemeConfig, loc: Location): Option<Value> {
    match loc
    case SectionField(s, k) =>
      if 0 <= s < |c.sections| && k in c.sections[s].fields then Some(c.sections[s].fields[k]) else None
    case ItemField(s, i, k) =>
      if 0 <= s < |c.sections| && 0 <= i < |c.sections[s].items| && k in c.sections[s].items[i].fields
      then Some(c.sections[s].items[i].fields[k]) else None
    case ButtonField(s, i, b, k) =>
      if 0 <= s < |c.sections| && 0 <= i < |c.sections[s].items|
         && c.sections[s].items[i].buttons.Some? && 0 <= b < |c.sections[s].items[i].buttons.value|
      then Some(Str(ButtonValue(c.sections[s].items[i].buttons.value[b], k))) else None
  }

  /** Two configurations with the same sections, items and buttons, field
      values aside. */
  predicate SameLayout(a: ThemeConfig, b: ThemeConfig) {
    && |a.sections| == |b.sections|
    && forall s :: 0 <= s < |a.sections| ==>
         && |a.sections[s].items| == |b.sections[s].items|
         && forall i :: 0 <= i < |a.sections[s].items| ==>
              && a.sections[s].items[i].buttons.Some? == b.sections[s].items[i].buttons.Some?
              && (a.sections[s].items[i].buttons.Some? ==>
                    |a.sections[s].items[i].buttons.value| == |b.sections[s].items[i].buttons.value|)
  }

  /** How an edit ends: nothing done (no configuration loaded, or the target
      does not exist for a button edit), a `TypeError` from indexing past the
      sections, or the new configuration set and saved. */
  datatype Outcome = Ignored | Thrown | Saved(config: ThemeConfig)

  function SetSectionField(c: ThemeConfig, s: int, k: FieldKey, v: Value): ThemeConfig
    requires 0 <= s < |c.sections|
  {
    var sec := c.sections[s];
    ThemeConfig(c.sections[s := sec.(fields := sec.fields[k := v])])
  }

  function SetItemField(c: ThemeConfig, s: int, i: int, k: FieldKey, v: Value): ThemeConfig
    requires 0 <= s < |c.sections| && 0 <= i < |c.sections[s].items|
  {
    var sec := c.sections[s];
    var it := sec.items[i];
    ThemeConfig(c.sections[s := sec.(items := sec.items[i := it.(fields := it.fields[k := v])])])
  }

  /** `handleChange`: on a clone of the configuration, set `key` of the item
      at `itemIndex` of section `sectionIndex` (if that item exists), or of the
      section itself when `itemIndex` is null; then store and save the clone.
      A missing section makes the property access throw. */
  function HandleChange(cfg: Option<ThemeConfig>, sectionIndex: int, itemIndex: Option<int>,
                        key: FieldKey, value: Value): (r: Outcome)
    ensures cfg.None? ==> r == Ignored
    ensures cfg.Some? && !(0 <= sectionIndex < |cfg.value.sections|) ==> r == Thrown
    ensures cfg.Some? && 0 <= sectionIndex < |cfg.value.sections| ==> r.Saved?
  {
    match cfg
    case None => Ignored
    case Some(c) =>
      if !(0 <= sectionIndex < |c.sections|) then Thrown
      else match itemIndex
        case None => Saved(SetSectionField(c, sectionIndex, key, value))
        case Some(i) =>
          if 0 <= i < |c.sections[sectionIndex].items| then Saved(SetItemField(c, sectionIndex, i, key, value))
          else Saved(c)
  }

  /** The location an edit aims at. */
  function ChangeTarget(sectionIndex: int, itemIndex: Option<int>, key: FieldKey): Location {
    match itemIndex
    case None => SectionField(sectionIndex, key)
    case Some(i) => ItemField(sectionIndex, i, key)
  }

  /** Whether the aimed-at section or item exists. */
  predicate TargetExists(c: ThemeConfig, loc: Location) {
    match loc
    case SectionField(s, _) => 0 <= s < |c.sections|
    case ItemField(s, i, _) => 0 <= s < |c.sections| && 0 <= i < |c.sections[s].items|
    case ButtonField(s, i, b, _) =>
      0 <= s < |c.sections| && 0 <= i < |c.sections[s].items|
      && c.sections[s].items[i].buttons.Some? && 0 <= b < |c.sections[s].items[i].buttons.value|
  }

  /** A saved edit changes exactly one field: the aimed-at one takes the new
      value (when its section or item exists), every other location keeps
      its value, and no section, item or button is added or removed. */
  lemma HandleChangeOneField(c: ThemeConfig, sectionIndex: int, itemIndex: Option<int>,
                             key: FieldKey, value: Value, loc: Location)
    requires 0 <= sectionIndex < |c.sections|
    ensures var r := HandleChange(Some(c), sectionIndex, itemIndex, key, value);
      var target := ChangeTarget(sectionIndex, itemIndex, key);
      && r.Saved?
      && SameLayout(c, r.config)
      && Lookup(r.config, loc) == (if loc == target && TargetExists(c, target) then Some(value) else Lookup(c, loc))
  {
    match itemIndex
    case None => SetSectionFieldSpec(c, sectionIndex, key, value, loc);
    case Some(i) =>
      if 0 <= i < |c.sections[sectionIndex].items| {
        SetItemFieldSpec(c, sectionIndex, i, key, value, loc);
      }
  }

  lemma SetSectionFieldSpec(c: ThemeConfig, s: int, k: FieldKey, v: Value, loc: Location)
    requires 0 <= s < |c.sections|
    ensures SameLayout(c, SetSectionField(c, s, k, v))
    ensures Lookup(SetSectionField(c, s, k, v), loc) == if loc == SectionField(s, k) then Some(v) else Lookup(c, loc)
  {
  }

  lemma SetItemFieldSpec(c: ThemeConfig, s: int, i: int, k: FieldKey, v: Value, loc: Location)
    requires 0 <= s < |c.sections| && 0 <= i < |c.sections[s].items|
    ensures SameLayout(c, SetItemField(c, s, i, k, v))
    ensures Lookup(SetItemField(c, s, i, k, v), loc) == if loc == ItemField(s, i, k) then Some(v) else Lookup(c, loc)
  {
  }

  function SetButton(c: ThemeConfig, s: int, i: int, b: int, k: ButtonKey, v: string): ThemeConfig
    requires TargetExists(c, ButtonField(s, i, b, k))
  {
    var sec := c.sections[s];
    var it := sec.items[i];
    var bs := it.buttons.value;
    var nb := match k case ButtonName => bs[b].(name := v) case ButtonText => bs[b].(text := v);
    ThemeConfig(c.sections[s := sec.(items := sec.items[i := it.(buttons := Some(bs[b := nb]))])])
  }

  /** `handleButtonChange`: only when the section, the item, its `buttons`
      array and the button all exist is that button's field set, and the
      result stored and saved; otherwise nothing happens. */
  function HandleButtonChange(cfg: Option<ThemeConfig>, sectionIndex: int, itemIndex: int,
                              buttonIndex: int, key: ButtonKey, newValue: string): (r: Outcome)
    ensures r != Thrown
    ensures r.Saved? <==> cfg.Some? && TargetExists(cfg.value, ButtonField(sectionIndex, itemIndex, buttonIndex, key))
  {
    match cfg
    case None => Ignored
    case Some(c) =>
      if TargetExists(c, ButtonField(sectionIndex, itemIndex, buttonIndex, key))
      then Saved(SetButton(c, sectionIndex, itemIndex, buttonIndex, key, newValue))
      else Ignored
  }

  /** A button edit changes exactly one button field and nothing else. */
  lemma HandleButtonChangeOneField(c: ThemeConfig, sectionIndex: int, itemIndex: int,
                                   buttonIndex: int, key: ButtonKey, newValue: string, loc: Location)
    requires TargetExists(c, ButtonField(sectionIndex, itemIndex, buttonIndex, key))
    ensures var r := HandleButtonChange(Some(c), sectionIndex, itemIndex, buttonIndex, key, newValue);
      && r.Saved?
      && SameLayout(c, r.config)
      && Lookup(r.config, loc)
         == (if loc == ButtonField(sectionIndex, itemIndex, buttonIndex, key) then Some(Str(newValue))
             else Lookup(c, loc))
  {
  }

  // ---------------------------------------------------------------------------
  // Enabling the theme

  /** `selectedTheme` and `isThemeEnabled`. */
  datatype Selection = Selection(selectedTheme: string, isThemeEnabled: bool)

  const DefaultTheme := "Default"

  /** `theme?.name || 'Default'`. */
  function NameOrDefault(themeName: Option<string>): (r: string)
    ensures r != ""
    ensures themeName.Some? && themeName.value != "" ==> r == themeName.value
  {
    if themeName.Some? && themeName.value != "" then themeName.value else DefaultTheme
  }

  /** `toggleTheme`: switch off (back to `Default`) when enabled, switch this
      theme on otherwise. The new name is also what is stored and sent as
      `themeChanged`. */
  function ToggleTheme(s: Selection, themeName: Option<string>): (r: Selection)
    ensures r.isThemeEnabled == !s.isThemeEnabled
    ensures s.isThemeEnabled ==> r.selectedTheme == DefaultTheme
    ensures !s.isThemeEnabled ==> r.selectedTheme == NameOrDefault(themeName)
  {
    var newTheme := if s.isThemeEnabled then DefaultTheme else NameOrDefault(themeName);
    Selection(newTheme, !s.isThemeEnabled)
  }

  /** Switching off and on again selects this theme, enabled. */
  lemma ToggleThemeTwice(selected: string, themeName: Option<string>)
    ensures ToggleTheme(ToggleTheme(Selection(selected, true), themeName), themeName)
         == Selection(NameOrDefault(themeName), true)
  {
  }

  /** `handleEnableTheme`: whatever the state, this theme (or `Default`) selected and enabled. */
  function HandleEnableTheme(s: Selection, themeName: Option<string>): (r: Selection)
    ensures r.selectedTheme == NameOrDefault(themeName) && r.isThemeEnabled
  {
    Selection(NameOrDefault(themeName), true)
  }

  lemma HandleEnableThemeIdempotent(s: Selection, themeName: Option<string>)
    ensures HandleEnableTheme(HandleEnableTheme(s, themeName), themeName) == HandleEnableTheme(s, themeName)
    ensures !s.isThemeEnabled ==> HandleEnableTheme(s, themeName) == ToggleTheme(s, themeName)
  {
  }

  // ---------------------------------------------------------------------------
  // The remembered expanded state and the banner height

  const ExpandedHeight := 277
  const CollapsedHeight := 84

  /** What the page keeps when a theme is opened: the updated
      `themes.themeIsExpanded` map, `isExpanded` and the starting height. */
  datatype ExpandState = ExpandState(states: map<string, bool>, isExpanded: bool, height: int)

  /** The effect on `theme`: a theme with no recorded state is recorded as
      collapsed; the page starts in the recorded state, at its height. */
  function OpenTheme(states: map<string, bool>, name: string): (r: ExpandState)
    ensures name in r.states && r.isExpanded == r.states[name]
    ensures name !in states ==> r.states == states[name := false] && !r.isExpanded
    ensures name in states ==> r.states == states && r.isExpanded == states[name]
    ensures r.height == if r.isExpanded then ExpandedHeight else CollapsedHeight
  {
    var st := if name !in states then states[name := false] else states;
    ExpandState(st, st[name], if st[name] then ExpandedHeight else CollapsedHeight)
  }

  /** `toggleExpand`: flip `isExpanded` and, with a theme loaded, record the
      new state under its name. */
  function ToggleExpand(isExpanded: bool, themeName: Option<string>, states: map<string, bool>)
    : (r: (bool, map<string, bool>))
    ensures r.0 == !isExpanded
    ensures themeName.Some? ==> themeName.value in r.1 && r.1[themeName.value] == r.0
    ensures forall k :: (themeName.None? || k != themeName.value) ==>
      (k in r.1 <==> k in states) && (k in states ==> r.1[k] == states[k])
  {
    var newState := !isExpanded;
    (newState, if themeName.Some? then states[themeName.value := newState] else states)
  }

  /** `animateHeight`: one tick toward 277 (expanded) or 84 (collapsed). */
  function AnimateHeight(prev: int, isExpanded: bool): (r: int)
    ensures var t := if isExpanded then ExpandedHeight else CollapsedHeight;
      && ((prev <= r <= t) || (t <= r <= prev))
      && (r == t || HeightAnimation.Dist(r, t) == HeightAnimation.Dist(prev, t) - 1)
      && (prev == t ==> r == t)
  {
    HeightAnimation.Step(prev, isExpanded, ExpandedHeight, CollapsedHeight)
  }

  /** The banner settles at its target within as many ticks as it starts
      away from it, and stays. */
  lemma BannerSettles(prev: int, isExpanded: bool, n: nat)
    requires n >= HeightAnimation.Dist(prev, if isExpanded then ExpandedHeight else CollapsedHeight)
    ensures HeightAnimation.Ticks(prev, n, isExpanded, ExpandedHeight, CollapsedHeight)
         == if isExpanded then ExpandedHeight else CollapsedHeight
  {
    HeightAnimation.ReachesTarget(prev, n, isExpanded, ExpandedHeight, CollapsedHeight);
  }
}
