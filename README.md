# PulseSync YMusic-DRPC: a verified model of the patcher and the page logic

PulseSync is an Electron companion app for the Yandex Music desktop client.
This project models two parts of it in Dafny and proves properties of the model.

The first part is the patcher (`Patcher.patchRum`). It backs up the client's
`app.asar` and extracts it. It finds `rumScript.js`, `config.js` and `events.js`
by depth-first search and patches all three as text. It then repacks the archive,
rewrites the hash record in the macOS `Info.plist` and deletes the scratch
directory.

The second part is the decision logic of the renderer:
- the users page: paging, sorting and the pagination strip;
- the theme list: tag filter, match-first order, enabled/disabled sections, tag
  counts, filter badge and menus;
- the theme view: configuration edits, enabling a theme, the remembered expanded
  state and the banner height;
- the application shell: the Discord activity, `send_track` de-duplication, the
  mod-update list and the authorization retry loop;
- the user profile modal.

Modules, one file each:

- `Wrappers` (wrappers.dfy): `Option`.
- `Strings` (strings.dfy): `startsWith`/`endsWith`/`includes`/`indexOf`,
  `String.replace` with a string pattern (first occurrence only) and `join`.
- `Seqs` (seqs.dfy): `Array.filter` and the key-ordered sort that both
  `.sort` calls use, proved stable.
- `PatcherSearch` (patcher_search.dfy): the extracted archive as a tree of
  named entries.
  - `readFileSync`/`writeFileSync` on it.
  - The three searches, proved to return the first file of that name in
    depth-first pre-order over listing order.
- `PatcherText` (patcher_text.dfy): the text transforms.
  - The `rumScript.js` append.
  - The two `config.js` replacements.
  - The `events.js` hook.
  - The plist hash pattern `<key>hash</key>\s*<string>([^<]+)</string>`, matched
    as JavaScript's regular expression does and replaced by a new record
    (the replacement text inserted literally, see "Left out").
- `Patcher` (patcher.dfy): the patch run.
  - An `Installation` class whose fields are the files the run touches
    (`app.asar`, `app.asar.copy`, the scratch directory, `Info.plist`, the
    `music.hash` setting).
  - `PatchRum` updates them step by step.
- `UsersPage` (users.dfy), `ThemeList` (themelist.dfy), `ThemeView`
  (themeview.dfy), `AppShell` (appshell.dfy), `ProfileModal` (profile.dfy):
  one per page or component.
- `HeightAnimation` (animation.dfy): the banner-height interval step shared by
  the theme view and the profile modal.

How the model handles what it cannot run:
- File-system, archive, shell, network, IPC, store and timer effects are not
  performed. Their outcomes are parameters, such as the `Effects` record of the
  patcher, the `Probe` sequence of the retry loop and the `QueryReply` of the
  profile query.
- Helpers whose code is not part of this model are uninterpreted function
  parameters: `fixStrings`, `replaceParams`, `truncateLabel`,
  `encodeURIComponent`, `timeAgo`, `calculateSHA256FromAsar` and
  `compareVersions`. `compareVersions` is represented by a rank, so it is a
  total preorder.
- `Date.now()` is an integer parameter.
- The search match of a theme (`stringSimilarity` and substring tests) is a
  given predicate.

## Model

| member | source | states |
|---|---|---|
| PatcherSearch.FindInIsFirstInPreorder | src/main/modules/patcher/patch.ts:11-63 | The shared search loop returns exactly the first file path with the searched name in depth-first pre-order over listing order, descending into directories before later siblings |
| PatcherSearch.FindInSpec | src/main/modules/patcher/patch.ts:11-63 | In a well-formed tree a search returns a file path ending in the searched name that lies on the walk, and returns null exactly when no file of that name is on the walk |
| PatcherSearch.FoundIsFile | src/main/modules/patcher/patch.ts:11-63 | A hit is a non-empty path to a file (not a directory) whose last name is the searched one |
| PatcherSearch.FilesPruned | src/main/modules/patcher/patch.ts:50-53 | Skipping directories by name lists exactly the files of the full walk that lie under no skipped directory |
| PatcherSearch.FindInSameShape | src/main/modules/patcher/patch.ts:265-286 | Searching a tree whose file contents changed but whose layout did not gives the same answer, so the later searches are unaffected by the earlier writes |
| PatcherSearch.FindRumScript | src/main/modules/patcher/patch.ts:11-26 | `findRumScript` is the first `rumScript.js` of the unpruned walk |
| PatcherSearch.FindConfig | src/main/modules/patcher/patch.ts:28-43 | `findConfig` is the first `config.js` of the unpruned walk |
| PatcherSearch.FindEvents | src/main/modules/patcher/patch.ts:45-63 | `findEvents` is the first `events.js` of the walk that skips `node_modules` and `constants`, so the hit never lies under either |
| PatcherSearch.EventsOnlyUnderPrunedNotFound | src/main/modules/patcher/patch.ts:50-53 | An `events.js` that exists only below `node_modules` or `constants` is not found |
| PatcherSearch.WriteFileReadBack | src/main/modules/patcher/patch.ts:258-276 | After `writeFileSync` the same path reads back the written content |
| PatcherSearch.WriteFileOthers | src/main/modules/patcher/patch.ts:258-316 | A write leaves every other path's content unchanged |
| PatcherSearch.WriteFileTwice | src/main/modules/patcher/patch.ts:274-282 | Two writes to one file leave the tree as the second write alone would |
| PatcherSearch.WriteFileSameShape | src/main/modules/patcher/patch.ts:258-316 | A write changes a file's content and nothing of the tree's layout |
| PatcherSearch.ChildNamed | src/main/modules/patcher/patch.ts:14 | Looking a name up in a listing yields an entry of that name, or none when the listing has no such name |
| PatcherText.InjectRumScript | src/main/modules/patcher/patch.ts:119-258 | The patched `rumScript.js` is the old content followed by the script block |
| PatcherText.RumScriptInjectionRepeats | src/main/modules/patcher/patch.ts:121 | Patching twice appends the block twice: the append is not idempotent |
| PatcherText.EnableDevTools | src/main/modules/patcher/patch.ts:268-274 | Without `enableDevTools: false` the text is unchanged; otherwise exactly the first occurrence becomes `enableDevTools: true` |
| PatcherText.DisableWebSecurity | src/main/modules/patcher/patch.ts:276-282 | Without `enableWebSecurity: true` the text is unchanged; otherwise exactly the first occurrence becomes `enableWebSecurity: false` |
| PatcherText.PatchConfig | src/main/modules/patcher/patch.ts:268-282 | Both read-replace-write cycles in order. A config with neither setting is left as it was; one with `enableDevTools: false` ends up containing `enableDevTools: true`, and one with `enableWebSecurity: true` ends up containing `enableWebSecurity: false`, whatever else it holds |
| PatcherText.PatchEvents | src/main/modules/patcher/patch.ts:289-315 | Without the `handleApplicationEvents` anchor the text is unchanged; otherwise exactly its first occurrence is replaced by the hook text, and everything before and after it is kept |
| PatcherText.EventsPatchHoldsAnchor | src/main/modules/patcher/patch.ts:290-310 | The hook text contains the anchor, right after its leading line break and indentation, followed by the listener registration |
| PatcherText.PatchEventsKeepsAnchor | src/main/modules/patcher/patch.ts:290-314 | After patching, the anchor is still present and is immediately followed by the listener registration |
| PatcherText.RunEnd | src/main/modules/patcher/patch.ts:332 | A run ends inside the text, at a character that is not accepted or at the end of the text |
| PatcherText.RunEndAll | src/main/modules/patcher/patch.ts:332 | Every character of the run is accepted, so the run is maximal |
| PatcherText.PlistHashDelimited | src/main/modules/patcher/patch.ts:332 | Both tags after the key in the plist pattern begin with `<`, which neither `\s` nor `[^<]` accepts |
| PatcherText.MatchAt | src/main/modules/patcher/patch.ts:332-333 | A match of the hash pattern starts where it was tried, ends inside the text and captures a non-empty value with no `<` |
| PatcherText.MatchOpen | src/main/modules/patcher/patch.ts:332 | From the end of `\s*` on, a match ends after that point and captures a non-empty value with no `<` |
| PatcherText.MatchCapture | src/main/modules/patcher/patch.ts:332 | A capture `([^<]+)` followed by `</string>` is non-empty, has no `<` and ends inside the text |
| PatcherText.FindHash | src/main/modules/patcher/patch.ts:333 | `data.match(hashRegex)` finds the leftmost match, and none exists when it returns null |
| PatcherText.RewritePlist | src/main/modules/patcher/patch.ts:332-351 | With no match the plist is unchanged and no old hash is kept; otherwise the first match's span is replaced by the new record and its captured hash is returned |
| PatcherText.HashRecordLayout | src/main/modules/patcher/patch.ts:338 | The replacement record is the key, a line break, `<string>`, the hash and `</string>`, each at its offset |
| PatcherText.RecordParts | src/main/modules/patcher/patch.ts:332-338 | Where a record stands in a text, the key, the line break, the opening tag, the hash and the closing tag lie at their positions, and both tags begin with `<` |
| PatcherText.SpaceRun | src/main/modules/patcher/patch.ts:332 | `\s*` after the key of a written record takes exactly the line break |
| PatcherText.CaptureRun | src/main/modules/patcher/patch.ts:332 | `[^<]+` over a hash with no `<`, followed by `<`, takes exactly the hash |
| PatcherText.CaptureRecord | src/main/modules/patcher/patch.ts:332 | A hash with no `<` followed by the closing tag is captured whole and ends the match after the tag |
| PatcherText.OpenThenCapture | src/main/modules/patcher/patch.ts:332 | An opening tag hands the match over to the capture that follows it |
| PatcherText.OpenCaptureClose | src/main/modules/patcher/patch.ts:332 | An opening tag, a hash with no `<` and the closing tag match from the tag on and capture the hash |
| PatcherText.RecordOpen | src/main/modules/patcher/patch.ts:332-338 | From its opening tag on, a written record matches and captures its hash |
| PatcherText.RecordHead | src/main/modules/patcher/patch.ts:332-338 | A written record starts with the key, and `\s*` after it stops at the opening tag |
| PatcherText.KeyThenOpen | src/main/modules/patcher/patch.ts:332 | The key and the white-space run hand the match over to the opening tag |
| PatcherText.RecordFrom | src/main/modules/patcher/patch.ts:332-338 | A written record, with the positions of its parts given, matches where it stands and captures its hash |
| PatcherText.RecordMatchesAt | src/main/modules/patcher/patch.ts:332-338 | A written hash record matches the pattern where it stands and captures the written hash, for a hash that is non-empty and has no `<` |
| PatcherText.RewrittenRecordMatches | src/main/modules/patcher/patch.ts:332-346 | After the rewrite, the pattern at the old match position captures the new hash |
| Patcher.RewriteShape | src/main/modules/patcher/patch.ts:119-316 | Each read-transform-write step keeps the tree's layout |
| Patcher.RewriteContents | src/main/modules/patcher/patch.ts:119-316 | One step gives the found file the transform of its content and changes no other file |
| Patcher.RumPath | src/main/modules/patcher/patch.ts:116-119 | The `rumScript.js` hit can be read, and its name is `rumScript.js` |
| Patcher.ConfigPath | src/main/modules/patcher/patch.ts:265-268 | The `config.js` hit can be read, and its name is `config.js` |
| Patcher.EventsPath | src/main/modules/patcher/patch.ts:286-289 | The `events.js` hit can be read, and its name is `events.js` |
| Patcher.StagesShape | src/main/modules/patcher/patch.ts:116-316 | The intermediate trees stay well-formed with the extracted layout, so the config and events searches find in the partly patched tree what they find in the extracted one |
| Patcher.ThreeRewrites | src/main/modules/patcher/patch.ts:116-316 | Three steps on files with different names give each file its own transform and leave every other file alone |
| Patcher.PatchedTreeSpec | src/main/modules/patcher/patch.ts:116-316 | The fully patched tree keeps the layout; `rumScript.js` gets the appended block, `config.js` both replacements, `events.js` the hook, and every other file its content |
| Patcher.Installation.constructor | src/main/modules/patcher/patch.ts:105-107 | The installation starts with the given archive, plist and setting, no backup and no scratch directory |
| Patcher.Installation.CopyFile | src/main/modules/patcher/patch.ts:65-82 | The copy succeeds exactly when the command reports no error and writes nothing to stderr, and only then does `app.asar.copy` hold the archive |
| Patcher.Installation.ReconcileHash | src/main/modules/patcher/patch.ts:322-358 | The delayed macOS step changes the plist and `music.hash` exactly as `HashStep` says |
| Patcher.HashStep | src/main/modules/patcher/patch.ts:322-358 | Off macOS, with an unreadable plist or with no hash record nothing changes. Any change needs a writable plist, and then writes the new record and stores the old hash |
| Patcher.HashStepStoresNewHash | src/main/modules/patcher/patch.ts:332-346 | When the step rewrites the plist, `music.hash` gets the old hash and the pattern, at the old record's position, now captures the new hash |
| Patcher.Installation.PatchFiles | src/main/modules/patcher/patch.ts:116-317 | The scratch directory ends as the fully patched tree when `events.js` is found; otherwise the run stops after `config.js` with only the first two files patched |
| Patcher.Installation.PatchRum | src/main/modules/patcher/patch.ts:104-371 | A failed copy aborts with everything unchanged. A corrupt archive fails after the backup. A missing `events.js` returns false with nothing repacked or deleted. A packing error is caught. Otherwise the archive becomes the patched tree, the plist is reconciled, the scratch directory is deleted if the deletion succeeds, and the result is true |
| Patcher.Installation.PatchExtracted | src/main/modules/patcher/patch.ts:116-367 | For an archive that extracts: a missing `events.js` leaves the first two files patched and nothing repacked; a packing error leaves the archive and plist alone; otherwise the archive holds the patched tree and the plist and setting are as `HashStep` says |
| Patcher.Installation.Repack | src/main/modules/patcher/patch.ts:318-367 | After patching: nothing more happens without `events.js` or when packing fails; otherwise the archive holds the patched tree, the hash step runs and the scratch directory goes exactly when deletion succeeds |
| UsersPage.HandlePageChange | src/renderer/pages/users/index.tsx:97-101 | A page inside `[1, maxPages]` is adopted; any other request leaves the state unchanged |
| UsersPage.PageChangeKeepsRange | src/renderer/pages/users/index.tsx:97-101 | A page that was in range stays in range whatever page is requested |
| UsersPage.HandleSort | src/renderer/pages/users/index.tsx:103-112 | Sorting returns to page 1 with a single sort entry on the field. The same field flips its direction; a new field starts descending |
| UsersPage.SortClicksAlternate | src/renderer/pages/users/index.tsx:103-112 | A second click on a field flips the direction of the first, a third gives the direction of the first again; the clicked field is the sorted one and no other is |
| UsersPage.InitialState | src/renderer/pages/users/index.tsx:23-26 | The page starts on page 1 of 1, in range, sorted ascending by `createdAt`: that column shows the up arrow, another shows none, and the first click on it sorts descending |
| UsersPage.GetSortIcon | src/renderer/pages/users/index.tsx:114-123 | An icon appears exactly for the field at the head of the sorting list: down when descending, up when ascending |
| UsersPage.OnSearchChange | src/renderer/pages/users/index.tsx:245-248 | New search text resets to page 1 and keeps the rest of the state |
| UsersPage.RenderPagination | src/renderer/pages/users/index.tsx:125-193 | The window lies within `[1, maxPages]`, holds at most two consecutive pages and is full when there are at least two pages; a page in range is shown and is the only active button. The first/last buttons and the ellipses appear exactly when the window leaves pages out; back/next are disabled exactly on the first/last page |
| ThemeList.ToggleTag | src/renderer/pages/extensionbeta/index.tsx:91-95 | The tag flips membership; every other tag keeps its membership |
| ThemeList.ToggleTagTwice | src/renderer/pages/extensionbeta/index.tsx:91-95 | Toggling a tag twice restores the selection |
| ThemeList.FilterThemesByTags | src/renderer/pages/extensionbeta/index.tsx:117-120 | With no tag selected the list is unchanged; otherwise exactly the themes that carry a selected tag are kept, in order |
| ThemeList.SortByMatchIsPartition | src/renderer/pages/extensionbeta/index.tsx:114 | The stable match-first sort is the matching themes in their order followed by the others in theirs |
| ThemeList.FilterAndSortThemes | src/renderer/pages/extensionbeta/index.tsx:97-115 | `Default` is dropped; the result is the matching themes then the non-matching ones, each in list order, and is a permutation of the non-`Default` themes |
| ThemeList.GetFilteredThemes | src/renderer/pages/extensionbeta/index.tsx:122-129 | Asking for the current theme yields only themes of that name; any other argument yields only themes of other names |
| ThemeList.DisabledAsWrittenShowsCurrent | src/renderer/pages/extensionbeta/index.tsx:131-132 | For a list holding one theme named `other` that is also the current one, the as-written enabled and disabled lists both hold it, so it shows in both sections |
| ThemeList.DisabledThemes | src/renderer/pages/extensionbeta/index.tsx:132 | The disabled list never holds the current theme, and it coincides with the as-written list whenever the current theme is not named `other` |
| ThemeList.EnabledDisabledPartition | src/renderer/pages/extensionbeta/index.tsx:122-132 | The enabled and disabled lists together are a permutation of the filtered list |
| ThemeList.ShownSections | src/renderer/pages/extensionbeta/index.tsx:131-134 | Hiding enabled themes empties the enabled section. The disabled section is the as-written `getFilteredThemes('other')` either way, which is the intended disabled list whenever the current theme is not named `other` |
| ThemeList.ShownSectionsRepeatOther | src/renderer/pages/extensionbeta/index.tsx:131-134 | As written, a current theme named `other` appears in both the enabled and the disabled section |
| ThemeList.HideEnabledKeepsDisabled | src/renderer/pages/extensionbeta/index.tsx:133-134 | The disabled section does not depend on `hideEnabled` |
| ThemeList.CarriedByTail | src/renderer/pages/extensionbeta/index.tsx:136 | A tag carried by a later theme is carried by the list |
| ThemeList.FlatTagsSound | src/renderer/pages/extensionbeta/index.tsx:136 | Every flattened tag is a tag of some theme |
| ThemeList.FlatTagsComplete | src/renderer/pages/extensionbeta/index.tsx:136 | Every tag of every theme is in the flattened list |
| ThemeList.Dedup | src/renderer/pages/extensionbeta/index.tsx:136 | `Array.from(new Set(...))` has no repeats and the same members as its input |
| ThemeList.AllTags | src/renderer/pages/extensionbeta/index.tsx:136 | `allTags` lists every tag of every theme exactly once and nothing else |
| ThemeList.TagCountBounds | src/renderer/pages/extensionbeta/index.tsx:136-143 | Every listed tag is carried by at least one theme and by at most all of them |
| ThemeList.TagCounts | src/renderer/pages/extensionbeta/index.tsx:137-143 | The reduce has one key per listed tag, each mapped to the number of themes carrying it |
| ThemeList.BadgeLabel | src/renderer/pages/extensionbeta/index.tsx:302-307 | The badge is hidden at 0, reads `9+` above nine and the digit otherwise |
| ThemeList.BadgeShownIffFiltering | src/renderer/pages/extensionbeta/index.tsx:302-307 | The badge shows exactly when a tag is selected or enabled themes are hidden |
| ThemeList.ToggleMenu | src/renderer/pages/extensionbeta/index.tsx:180-192 | The chosen menu flips, opening one closes the other, and both are never open together |
| ThemeView.HandleChange | src/renderer/pages/extensionbeta/route/extensionview.tsx:382-410 | With no configuration nothing happens. A missing section throws. Otherwise the clone is stored and saved |
| ThemeView.HandleChangeOneField | src/renderer/pages/extensionbeta/route/extensionview.tsx:382-410 | A saved edit keeps the layout and sets exactly the aimed-at field when its section or item exists; every other field keeps its value, and an edit of a missing item saves an unchanged copy |
| ThemeView.SetSectionFieldSpec | src/renderer/pages/extensionbeta/route/extensionview.tsx:405 | Setting a section field changes that field and nothing else |
| ThemeView.SetItemFieldSpec | src/renderer/pages/extensionbeta/route/extensionview.tsx:398-403 | Setting an item field changes that field and nothing else |
| ThemeView.HandleButtonChange | src/renderer/pages/extensionbeta/route/extensionview.tsx:412-436 | A button edit is saved exactly when the section, item, `buttons` array and button all exist, and never throws |
| ThemeView.HandleButtonChangeOneField | src/renderer/pages/extensionbeta/route/extensionview.tsx:412-436 | A saved button edit sets exactly that button field and leaves everything else, including the layout |
| ThemeView.NameOrDefault | src/renderer/pages/extensionbeta/route/extensionview.tsx:157 | `theme?.name \|\| 'Default'` is never empty and is the theme's name when it has one |
| ThemeView.ToggleTheme | src/renderer/pages/extensionbeta/route/extensionview.tsx:156-162 | The enabled flag flips. Switching off selects `Default`; switching on selects this theme or `Default` |
| ThemeView.ToggleThemeTwice | src/renderer/pages/extensionbeta/route/extensionview.tsx:156-162 | Off and on again leaves this theme selected and enabled |
| ThemeView.HandleEnableTheme | src/renderer/pages/extensionbeta/route/extensionview.tsx:189-195 | Enabling always ends with this theme (or `Default`) selected and enabled |
| ThemeView.HandleEnableThemeIdempotent | src/renderer/pages/extensionbeta/route/extensionview.tsx:156-162 | Enabling twice is enabling once, and from the disabled state it agrees with the toggle |
| ThemeView.OpenTheme | src/renderer/pages/extensionbeta/route/extensionview.tsx:130-142 | A theme with no recorded state is recorded as collapsed; the page starts in the recorded state at its height (277 or 84) |
| ThemeView.ToggleExpand | src/renderer/pages/extensionbeta/route/extensionview.tsx:144-154 | `isExpanded` flips and, with a theme loaded, the new state is recorded under its name with every other entry kept |
| ThemeView.AnimateHeight | src/renderer/pages/extensionbeta/route/extensionview.tsx:164-187 | One tick never passes the target (277 expanded, 84 collapsed) and never moves away from it. It either lands on the target or gets exactly one pixel closer, and at the target it stays |
| ThemeView.BannerSettles | src/renderer/pages/extensionbeta/route/extensionview.tsx:164-187 | The height reaches its target within as many ticks as it starts away from it, and stays there |
| HeightAnimation.Step | src/renderer/pages/extensionbeta/route/extensionview.tsx:166-180 | The shared tick never overshoots and either lands on the target or gets one pixel closer |
| HeightAnimation.StaysAtTarget | src/renderer/pages/extensionbeta/route/extensionview.tsx:172-176 | At the target, any number of ticks keeps the height there |
| HeightAnimation.ReachesTarget | src/renderer/pages/extensionbeta/route/extensionview.tsx:164-187 | From any height, as many ticks as the distance to the target reach it |
| HeightAnimation.StepJumpsAtOnce | src/renderer/pages/extensionbeta/route/extensionview.tsx:166-178 | As written, from either resting height the first tick returns the other one |
| HeightAnimation.IntendedStep | src/renderer/pages/extensionbeta/route/extensionview.tsx:166-178 | The corrected tick never passes the target |
| HeightAnimation.IntendedStepAnimates | src/renderer/pages/extensionbeta/route/extensionview.tsx:164-187 | With the corrected step the height moves one pixel per tick between the resting heights, in both directions |
| AppShell.GetCoverImage | src/renderer/pages/_app.tsx:796-803 | The cover is the first set field among `albumArt`, `coverUri` and `ogImage`, else the app icon, and is never empty |
| AppShell.TrackStartTime | src/renderer/pages/_app.tsx:805-809 | 0 without timestamps, else the first |
| AppShell.TrackEndTime | src/renderer/pages/_app.tsx:811-815 | 0 without timestamps, `undefined` with one, else the second |
| AppShell.BaseActivity | src/renderer/pages/_app.tsx:826-864 | The base activity has type 2, the cover and the app version. Paused with `displayPause` gives the pause icon, the bare title and no timestamps. Otherwise a non-generative track gets the computed start and end timestamps |
| AppShell.CollectButtons | src/renderer/pages/_app.tsx:866-902 | A listen button exists exactly when listening is enabled and the id is not generative. It links to the album and track, or to `track.url` for uploads. The GitHub button comes last, there are at most two, the field is absent when empty, and a missing album throws |
| AppShell.Neuromusic | src/renderer/pages/_app.tsx:904-932 | The neuromusic branch retitles the track, suffixes the details once, enlarges a `%%` cover and drops `state` |
| AppShell.UpdateActivity | src/renderer/pages/_app.tsx:817-937 | Untouched when RPC is off or the user is unknown. Cleared exactly for an empty title, a hidden pause or two zero timestamps. A TypeError exactly for a wanted listen button without an album. Otherwise it publishes the activity of `BaseActivity` with the buttons of `CollectButtons`: the same timestamps, icons and state text, at most two buttons with two exactly when both apply, the listen button first (the file URL for an upload, the album and track deep link otherwise) and GitHub last. A neuromusic track instead gets the suffixed details, no state, the enlarged cover and a new title |
| AppShell.RetitleIsStable | src/renderer/pages/_app.tsx:907-924 | The new title already ends with the suffix, so the next run neither extends it nor changes the details line |
| AppShell.TimestampsSpanTrack | src/renderer/pages/_app.tsx:830-834 | With two timestamps the end minus the start is the whole seconds of the second timestamp, and the start is now minus the elapsed whole seconds |
| AppShell.TrackSender.constructor | src/renderer/pages/_app.tsx:684-688 | Nothing has been sent and the last-sent triple is all null |
| AppShell.TrackSender.Observe | src/renderer/pages/_app.tsx:938-956 | `send_track` is emitted exactly when connected, enabled, titled and different in title, status or position from the last sent triple, which then becomes the sent values |
| AppShell.RepeatSuppressed | src/renderer/pages/_app.tsx:942-954 | An unchanged track is never re-sent, any change of title, status or position is, and the first track always is |
| AppShell.ModUpdatesSpec | src/renderer/pages/_app.tsx:381-390 | The list holds exactly the strictly newer mods (every mod when no version is known), each as often as offered, sorted newest first |
| AppShell.FetchModInfo | src/renderer/pages/_app.tsx:379-409 | An invalid reply is only logged. "No updates" exactly when nothing is newer. Otherwise the stored list holds the updates headed by the newest, and the notification shows exactly when a mod is installed |
| AppShell.ModUpdatesEmpty | src/renderer/pages/_app.tsx:380-391 | The update list comes out empty only when no offered mod is newer |
| AppShell.ModUpdatesNewestFirst | src/renderer/pages/_app.tsx:380-391 | A non-empty update list starts with an update at least as new as any offered |
| AppShell.NotifyAsWrittenMissesUpdate | src/renderer/pages/_app.tsx:394-396 | With "1.10.0" newer than "1.9.0", the list offers "1.10.0" but the string comparison as written shows no notification |
| AppShell.Attempt | src/renderer/pages/_app.tsx:154-282 | Success exactly with a token, internet and a user id. A retryable failure with retries left decrements the counter by exactly one and changes nothing else; at 0 it gives up with loading off. The token is deleted exactly on a user without id, FORBIDDEN or DEPRECATED_VERSION |
| AppShell.Tick | src/renderer/pages/_app.tsx:288-296 | A tick without a token turns loading off and stops. Otherwise it attempts; as written it stops when authorized or when the counter is 0, and under the corrected rule once the give-up ran |
| AppShell.OfflineAsWrittenNeverGivesUp | src/renderer/pages/_app.tsx:284-296 | As written, with at least two retries and no internet, the interval stops at 0 without ever giving up, and loading stays on |
| AppShell.TicksOfflineAtZero | src/renderer/pages/_app.tsx:288-296 | Offline ticks count the retries down and stop at 0 with loading still on |
| AppShell.OfflineFixedGivesUp | src/renderer/pages/_app.tsx:284-296 | Under the corrected rule, staying offline for one attempt more than the retries always gives up, turns loading off and stops |
| AppShell.TicksOfflineOnGiveUp | src/renderer/pages/_app.tsx:288-296 | Under the corrected rule, offline ticks end in the give-up |
| AppShell.Authorizer.constructor | src/renderer/pages/_app.tsx:151-152 | The counter starts at the maximum, with loading on and no user |
| AppShell.Authorizer.GiveUpOrRetry | src/renderer/pages/_app.tsx:159-172 | Decrement when retries are left, else give up with loading off |
| AppShell.Authorizer.AttemptAuthorization | src/renderer/pages/_app.tsx:154-282 | The closure state after an attempt is what `Attempt` gives |
| AppShell.Authorizer.RetryAuthorization | src/renderer/pages/_app.tsx:284-303 | The state after the first attempt and the interval ticks, and whether the interval stopped, are what the as-written `Authorize` gives |
| ProfileModal.GetStatusColor | src/renderer/components/userProfileModal/index.tsx:21-25 | Yellow exactly when playing; green exactly when online and not playing; grey otherwise |
| ProfileModal.GetStatusTooltip | src/renderer/components/userProfileModal/index.tsx:28-40 | A playing track gives "Слушает: title — artists" (or "Слушает музыку" without title) and only then starts with "Слушает". Otherwise: "Сейчас в сети" exactly when online, "Был в сети: …" exactly with a last-online time, "Не в сети" otherwise |
| ProfileModal.ColorMatchesTooltip | src/renderer/components/userProfileModal/index.tsx:21-40 | The dot colour and the tooltip always agree on playing, online and offline |
| ProfileModal.InitialAtRest | src/renderer/components/userProfileModal/index.tsx:47-51 | Before any query the modal shows the initial user (its profile, or "not found" without a real id), and the collapsed banner at 184 is at rest |
| ProfileModal.RenderContent | src/renderer/components/userProfileModal/index.tsx:127-136 | Loading first, then the error text (message or string form), then "not found" for an empty or `-1` id, then the profile with colour and tooltip; each exactly under its condition |
| ProfileModal.BeginQuery | src/renderer/components/userProfileModal/index.tsx:76-81 | Only an open modal with a user name queries, after resetting the user to the initials, raising loading and clearing the error |
| ProfileModal.FinishQuery | src/renderer/components/userProfileModal/index.tsx:88-96 | Loading ends in every case. A null user stores "User not found", a user is stored, a rejection stores its error |
| ProfileModal.QueryOutcomeShown | src/renderer/components/userProfileModal/index.tsx:76-136 | While the query runs the modal shows loading. Afterwards it shows the stored error, "not found" for a user without a real id, or that user's profile |
| ProfileModal.ToggleBanner | src/renderer/components/userProfileModal/index.tsx:122 | The expanded flag flips and nothing else changes |
| ProfileModal.BannerStep | src/renderer/components/userProfileModal/index.tsx:99-120 | One tick toward 300 (expanded) or 184 (collapsed) never overshoots and either lands or gets one pixel closer |
| ProfileModal.BannerSettles | src/renderer/components/userProfileModal/index.tsx:99-120 | From anywhere between the two heights the banner rests at its target after at most 116 ticks and stays there |
| Strings.IndexOf | src/main/modules/patcher/patch.ts:268 | The search from a position finds the leftmost occurrence at or after it, and none exists when it reports none |
| Strings.IndexOfFromZero | src/main/modules/patcher/patch.ts:268 | `includes` is false exactly when there is no occurrence, and otherwise the leftmost occurrence is found |
| Strings.ReplaceFirst | src/main/modules/patcher/patch.ts:269-272 | `replace` with a string pattern leaves a text without the pattern unchanged and otherwise substitutes exactly its first occurrence |
| Strings.ReplaceFirstAt | src/main/modules/patcher/patch.ts:269-272 | A present pattern is replaced at its leftmost occurrence |
| Strings.ReplaceFirstPlaces | src/main/modules/patcher/patch.ts:269-272 | When the pattern is present, the replacement text occurs in the result |
| Strings.ReplaceFirstKeeps | src/main/modules/patcher/patch.ts:268-282 | Replacing a word by one with the same first and last character keeps every other word that can overlap it by one character at most |
| Strings.SpliceKeepsBefore | src/main/modules/patcher/patch.ts:269-272 | A splice keeps, in place, every occurrence that ends within the common prefix of the old and new text |
| Strings.SpliceKeepsAfter | src/main/modules/patcher/patch.ts:269-272 | A splice keeps every occurrence that starts within the common suffix of the old and new text, moved by the change in length |
| Strings.SpliceKeepsApart | src/main/modules/patcher/patch.ts:269-272 | An occurrence sharing at most the first or last character of the spliced one survives when the new text has those characters too |
| Strings.OverlapAtMostOne | src/main/modules/patcher/patch.ts:268-282 | Two words that start with `e`, each with a letter at index 6 the other lacks and no `e` among its six characters before the last, overlap by one character at most |
| Strings.Join | src/renderer/components/userProfileModal/index.tsx:30-32 | `join` of no names is empty, of one name is that name, and of more starts with the first name and the separator |
| Strings.OccursInMiddle | src/main/modules/patcher/patch.ts:312-315 | A piece placed between two texts occurs right after the first |
| Strings.OccursInConcat | src/main/modules/patcher/patch.ts:338 | Both parts of a concatenation occur where they were placed |
| Strings.OccursWithin | src/main/modules/patcher/patch.ts:332-338 | An occurrence inside an occurrence lies at the sum of the two offsets |
| Seqs.Filter | src/renderer/pages/extensionbeta/index.tsx:99-128 | `filter` keeps only selected elements and is never longer than its input |
| Seqs.FilterMembers | src/renderer/pages/extensionbeta/index.tsx:119-128 | An element is kept exactly when it is in the input and selected |
| Seqs.FilterAppend | src/renderer/pages/extensionbeta/index.tsx:127-128 | Filtering a concatenation is concatenating the filtered parts |
| Seqs.FilterMultiset | src/renderer/pages/_app.tsx:382-389 | A filter keeps each selected value as often as it occurs and drops every other value |
| Seqs.FilterSplit | src/renderer/pages/extensionbeta/index.tsx:127-128 | Filtering by a predicate and by its negation splits a list into two parts whose multisets add up to it |
| Seqs.InsertDescElements | src/renderer/pages/extensionbeta/index.tsx:114 | Inserting grows a list by one and adds no element other than the inserted one |
| Seqs.ConsSorted | src/renderer/pages/extensionbeta/index.tsx:114 | A largest-first list stays sorted with an element in front whose key is at least every key in it |
| Seqs.InsertDescSorted | src/renderer/pages/extensionbeta/index.tsx:114 | Inserting into a largest-first list keeps it sorted |
| Seqs.InsertDescMultiset | src/renderer/pages/extensionbeta/index.tsx:114 | Inserting adds exactly the inserted element |
| Seqs.SortDescSpec | src/renderer/pages/_app.tsx:390 | The key-ordered sort returns a permutation of its input, largest key first |
| Seqs.FilterNoneBelow | src/renderer/pages/extensionbeta/index.tsx:114 | A list whose keys are all below a value has no element with that key |
| Seqs.InsertDescStable | src/renderer/pages/extensionbeta/index.tsx:114 | Inserting into a largest-first list puts the element after every element with the same key |
| Seqs.SortDescStable | src/renderer/pages/_app.tsx:390 | The sort is stable: the elements with any one key keep their input order |
| PatcherSearch.Files | src/main/modules/patcher/patch.ts:11-63 | The depth-first walk lists only non-empty paths |
| PatcherSearch.Prefixed | src/main/modules/patcher/patch.ts:13-14 | Prepending a directory name to each path keeps the number of paths and yields paths that start with it |
| PatcherSearch.PrefixedMember | src/main/modules/patcher/patch.ts:13-14 | A path is in the prefixed list exactly when it is the directory name followed by one of the original paths |
| PatcherSearch.FirstNamed | src/main/modules/patcher/patch.ts:16-23 | A hit is a listed path whose last name is the given one; none means no listed path has that name |
| PatcherSearch.FirstNamedAppend | src/main/modules/patcher/patch.ts:12-25 | The first hit in two lists in a row is the first hit of the first list, else of the second |
| PatcherSearch.FirstNamedPrefixed | src/main/modules/patcher/patch.ts:16-18 | The first hit inside a directory is the directory name followed by the first hit in its walk |
| PatcherSearch.FilesStartListed | src/main/modules/patcher/patch.ts:12-14 | Every walked path starts with the name of an entry in the listing |
| PatcherSearch.UniqueNamesTail | src/main/modules/patcher/patch.ts:12-14 | A well-formed listing stays well-formed without its first entry |
| PatcherSearch.FileContentSkipHead | src/main/modules/patcher/patch.ts:15-20 | A path that does not start at the first entry reads the same without that entry |
| PatcherSearch.FilesAreFiles | src/main/modules/patcher/patch.ts:15-20 | Every walked path reads as a file |
| PatcherSearch.FilesAreFilesHead | src/main/modules/patcher/patch.ts:15-20 | A walked path that goes through the first entry reads as a file |
| PatcherSearch.SameShapeRefl | src/main/modules/patcher/patch.ts:116 | Every tree has the layout of itself |
| PatcherSearch.SameShapeUniqueNames | src/main/modules/patcher/patch.ts:116 | A tree with the layout of one whose listings have unique names has unique names too |
| PatcherText.RunEndAt | src/main/modules/patcher/patch.ts:332 | When every character from a start to an end is accepted and the one at the end is not (or the text ends), `RunEnd` returns that end |
| Patcher.SameShapeTrans | src/main/modules/patcher/patch.ts:116-316 | Having the same layout is transitive, so the tree after all three steps has the extracted layout |
| ThemeList.FilterSnoc | src/renderer/pages/extensionbeta/index.tsx:114-128 | Filtering a list with one more element at the end adds that element when selected |
| ThemeList.InsertIntoUnmatched | src/renderer/pages/extensionbeta/index.tsx:114 | The comparator puts a matching theme before all non-matching ones and a non-matching one after them |
| ThemeList.InsertIntoPartition | src/renderer/pages/extensionbeta/index.tsx:114 | Into matching-then-non-matching themes, a matching theme goes at the end of the matching part, any other at the very end |
| ThemeList.ConsConcat | src/renderer/pages/extensionbeta/index.tsx:114 | Putting a list's first element back in front of its rest and a tail gives the list followed by the tail |
| ThemeList.PartitionMembers | src/renderer/pages/extensionbeta/index.tsx:114 | The first group holds only matching themes and the second only non-matching ones |
| ThemeList.SnocFilters | src/renderer/pages/extensionbeta/index.tsx:114 | With one more theme at the end, the two groups grow by that theme in the group it belongs to |
| HeightAnimation.IntendedStepDown | src/renderer/pages/extensionbeta/route/extensionview.tsx:166-180 | With the corrected step, collapsing moves down one pixel per tick while above the resting height |

## Left out

- File-system and process I/O.
  - `exec` of `cp`/`copy` and `rm -rf`/`rmdir`, `asar.extractAll`/`createPackage`, `fs` reads and writes, `getPathToYandexMusic` and `store.set`.
  - These are modelled as updates of the `Installation` fields with their success or failure as parameters.
  - `calculateSHA256FromAsar` is a function parameter.
- The body of the browser script appended to `rumScript.js` and the body of the `events.js` listener. They run in another process and are opaque constants.
- The fixed delays (`setTimeout` of 2000 ms in `patchRum`, the 5 ms animation interval, the retry interval) are step boundaries. Interleavings of ticks with other events, and overlapping async ticks, are not modelled.
- Patcher.Installation.PatchRum: the deletion's result is not awaited, so `true` is returned whatever the deletion does. The model records the deletion's outcome in the scratch directory and does not model it running after the promise settles.
- Networking: Apollo GraphQL, socket.io, `fetch`, IPC and the toasts and notifications. Their effects are results, such as `RpcAction`, `ModCheck`, `Attempted` and `QueryReply`.
- Rendering: JSX, styles, refs and the click-outside handlers (`handleClickOutside`) of the theme list and theme view.
- The theme list's `handleCheckboxChange` and `filterThemes`/`maxThemeCount`. They only write the store and count rows for layout.
- Floating point.
  - The `stringSimilarity` search match is a given predicate.
  - Track timestamps are exact `real`s rounded with `Floor`, where JavaScript uses doubles.
  - `progress.played` is compared as a `real`, so the `NaN !== NaN` case does not arise.
- AppShell.UpdateActivity: `fixStrings`, `replaceParams`, `truncateLabel` and `encodeURIComponent` are uninterpreted, so nothing is proved about the texts they produce.
- PatcherText.RewritePlist: JavaScript's `replace` reads `$&`, `$1`, `` $` ``, `$'` and `$$` in the replacement text as patterns. The model inserts the text literally, which agrees with JavaScript for any hash without `$`, as a SHA-256 hex digest is; the same holds for `Patcher.HashStep`.
- Patcher.HashStep: a `calculateSHA256FromAsar` that throws is caught and only logged, so the plist and `music.hash` stay as they were; this is the outcome of the unreadable-plist case, and the throw is not a separate branch.
- PatcherText.RunEnd: its own contract says only where the run stops; that every character before the stop is accepted is the separate lemma `RunEndAll`.
- PatcherText.RecordMatchesAt: proved for a hash that is non-empty and has no `<`, as a SHA-256 hex digest is. The digest is a parameter, so its format is not modelled; the same holds for `PatcherText.RewrittenRecordMatches` and `Patcher.HashStepStoresNewHash`.
- AppShell.FetchModInfo: `compareVersions` is a rank, so malformed version strings that the helper might reject are not modelled.
- ProfileModal.QueryOutcomeShown: a reply for an earlier user name arriving after a later query started is not modelled, because the effects are applied in order.
- The initial user records (`userInitials`, `trackInitials`) are parameters, not their concrete field values.

## Findings

| source | as written | input that shows it | evidently intended | confidence | as-written member | corrected member |
|---|---|---|---|---|---|---|
| src/renderer/pages/extensionbeta/index.tsx:132 | `disabledThemes = getFilteredThemes('other')` selects by comparing the literal `'other'` with `currentThemeName` | a current theme named `other`: the disabled list equals the enabled list, so the theme shows in both sections | the disabled list is every filtered theme not named `currentThemeName` | not executed; certain for that name | ThemeList.DisabledAsWrittenShowsCurrent | ThemeList.DisabledThemes |
| src/renderer/pages/_app.tsx:293-295 | the retry interval is cleared as soon as `retryCount === 0` after a decrement, before the give-up branch can run | `MAX_RETRY_COUNT` of 2 or more with no internet: the counter reaches 0, the interval stops, and `setLoading(false)` and the "too many attempts" toast never happen | the interval stops after the give-up branch ran, so loading ends | not executed; likely | AppShell.OfflineAsWrittenNeverGivesUp | AppShell.OfflineFixedGivesUp |
| src/renderer/pages/_app.tsx:396 | the update notification compares version strings with `<` | installed "1.9.0" and offered "1.10.0": the list offers 1.10.0, but "1.9.0" < "1.10.0" is false as strings, so no notification appears | compare with the same `compareVersions` order the filter uses | not executed; likely | AppShell.NotifyAsWrittenMissesUpdate | AppShell.FetchModInfo |
| src/renderer/pages/extensionbeta/route/extensionview.tsx:166-167 | `step` is `-1` when expanding toward the larger height 277 and `+1` when collapsing toward 84 | from the resting height 84, expanding: the first tick sets the height state to 277, so the 5 ms interval's one-pixel stepping never runs; collapsing likewise sets 84 in one tick. On screen the banner's CSS `height 0.5s ease` transition (extensionview.tsx:869-875) still animates the change | the step points toward the target, `+1` when expanding | not executed; the state change is certain, a visible effect is not claimed | HeightAnimation.StepJumpsAtOnce | HeightAnimation.IntendedStepAnimates |
| src/renderer/components/userProfileModal/index.tsx:100-101 | the same inverted `step` for the banner heights 300 and 184 | from 184, expanding: the first tick sets the height state to 300, so the one-pixel stepping never runs; the banner's `height 0.5s ease` transition (index.tsx:142-145) still animates it on screen | the step points toward the target, `+1` when expanding | not executed; the state change is certain, a visible effect is not claimed | HeightAnimation.StepJumpsAtOnce | HeightAnimation.IntendedStepAnimates |

The page-level members `ThemeView.AnimateHeight` and `ProfileModal.BannerStep` model the step as written. `ThemeList.ShownSections` builds the disabled section as written; the corrected list is `ThemeList.DisabledThemes`, which `ThemeList.EnabledDisabledPartition` is about. The corrected tick is `HeightAnimation.IntendedStep`. `AppShell.Authorizer.RetryAuthorization` models the retry interval as written; the corrected stop rule is `OnGiveUp` in `AppShell.Tick`, and `AppShell.Authorize` does not start the interval under it when the first attempt already gave up. `AppShell.FetchModInfo` uses the corrected notification test `NotifyUpdate`.
