/** The application shell (src/renderer/pages/_app.tsx): the Player's Discord
    activity, the de-duplicated `send_track` emission, the mod-update list and
    the authorization retry loop. Everything that talks to Discord, the
    socket, GraphQL or the store is a parameter or a recorded effect. */
module AppShell {
  import opened Wrappers
  import opened Strings
  import opened Seqs

  // ---------------------------------------------------------------------------
  // The track as the Player sees it

  /** The fields of the current track that the Player reads. An unset cover
      field is the empty string, which JavaScript treats as false; `artists`
      are the artist names and `albumIds` the ids of `track.albums`. */
  datatype Track = Track(
    title: string,
    status: string,
    id: string,
    trackSource: string,
    url: string,
    realId: string,
    imageUrl: string,
    albumArt: string,
    coverUri: string,
    ogImage: string,
    timestamps: seq<real>,
    artists: seq<string>,
    albumIds: seq<string>,
    played: real)

  const DefaultCover := "https://cdn.discordapp.com/app-assets/984031241357647892/1180527644668862574.png"
  const PausedIcon := "https://cdn.discordapp.com/app-assets/984031241357647892/1328177768810156184.png?size=256"

  /** `getCoverImage`: the first cover field that is set, else the app icon. */
  function GetCoverImage(t: Track): (r: string)
    ensures r != ""
    ensures t.albumArt != "" ==> r == t.albumArt
    ensures t.albumArt == "" && t.coverUri != "" ==> r == t.coverUri
    ensures t.albumArt == "" && t.coverUri == "" && t.ogImage != "" ==> r == t.ogImage
    ensures t.albumArt == "" && t.coverUri == "" && t.ogImage == "" ==> r == DefaultCover
  {
    if t.albumArt != "" then t.albumArt
    else if t.coverUri != "" then t.coverUri
    else if t.ogImage != "" then t.ogImage
    else DefaultCover
  }

  /** `getTrackStartTime`: the first timestamp, 0 when there is none. */
  function TrackStartTime(t: Track): (r: real)
    ensures |t.timestamps| == 0 ==> r == 0.0
    ensures |t.timestamps| > 0 ==> r == t.timestamps[0]
  {
    if |t.timestamps| > 0 then t.timestamps[0] else 0.0
  }

  /** `getTrackEndTime`: 0 when there are no timestamps, else the second one;
      with a single timestamp JavaScript reads `undefined`, here `None`. */
  function TrackEndTime(t: Track): (r: Option<real>)
    ensures |t.timestamps| == 0 ==> r == Some(0.0)
    ensures |t.timestamps| == 1 ==> r == None
    ensures |t.timestamps| >= 2 ==> r == Some(t.timestamps[1])
  {
    if |t.timestamps| == 0 then Some(0.0)
    else if |t.timestamps| == 1 then None
    else Some(t.timestamps[1])
  }

  // ---------------------------------------------------------------------------
  // The Discord activity

  /** The Discord settings the effect reads (`app.discordRpc`). */
  datatype RpcSettings = RpcSettings(
    status: bool,
    details: string,
    state: string,
    button: string,
    displayPause: bool,
    enableRpcButtonListen: bool,
    enableGithubButton: bool)

  /** `fixStrings`, `replaceParams`, `truncateLabel` and `encodeURIComponent`,
      whose code is not part of this model. */
  datatype Helpers = Helpers(
    fixStrings: string -> string,
    replaceParams: (string, Track) -> string,
    truncateLabel: string -> string,
    encodeUri: string -> string)

  datatype Button = Button(caption: string, url: string)  // `{ label, url }`

  /** A millisecond timestamp, or the `NaN` that `undefined` arithmetic gives. */
  datatype Stamp = At(ms: int) | NotANumber

  /** The `activity` object; a field that is absent (never set or deleted) is
      `None`. */
  datatype Activity = Activity(
    kind: int,
    largeImageKey: string,
    smallImageKey: string,
    smallImageText: string,
    details: string,
    state: Option<string>,
    startTimestamp: Option<int>,
    endTimestamp: Option<Stamp>,
    buttons: Option<seq<Button>>)

  /** What one run of the effect does: nothing, `clearActivity`, a TypeError
      (reading `track.albums[0].id` with no album), or `setActivity` together
      with the title `setTrack` gives the track, if it is called. */
  datatype RpcAction =
    | Untouched
    | Cleared
    | Thrown
    | Publish(activity: Activity, retitled: Option<string>)

  const NeuroSuffix := " - Нейромузыка"
  const GithubButton := Button("♡ PulseSync Project", "https://github.com/PulseSync-LLC/YMusic-DRPC/tree/dev")
  const ListenDefaultLabel := "✌️ Open in Yandex Music"
  const FileDefaultLabel := "✌️ Open music file"

  predicate RpcEnabled(rpc: RpcSettings, userId: string) {
    rpc.status && userId != "-1"
  }

  /** The three reasons to clear the activity instead of setting it. Reading
      a missing timestamp gives `undefined`, which is not `0`. */
  predicate ShouldClear(t: Track, rpc: RpcSettings) {
    t.title == ""
    || (t.status == "paused" && !rpc.displayPause)
    || (|t.timestamps| >= 2 && t.timestamps[0] == 0.0 && t.timestamps[1] == 0.0)
  }

  predicate IsGenerative(t: Track) {
    Contains(t.id, "generative")
  }

  predicate ShowsPause(t: Track, rpc: RpcSettings) {
    t.status == "paused" && rpc.displayPause
  }

  /** Some listen button (to Yandex Music or to the file) is wanted. */
  predicate ListenWanted(t: Track, rpc: RpcSettings) {
    !IsGenerative(t) && rpc.enableRpcButtonListen
  }

  /** The Yandex Music listen button is wanted but the track has no album. */
  predicate MissingAlbum(t: Track, rpc: RpcSettings) {
    ListenWanted(t, rpc) && t.trackSource != "UGC" && t.albumIds == []
  }

  /** A track without artists that is not a user upload: "neuromusic". */
  predicate IsNeuromusic(t: Track) {
    |t.artists| == 0 && t.trackSource != "UGC"
  }

  /** `startTimestamp`: now, rounded down to the second, minus the elapsed
      whole seconds. */
  function StartStamp(nowMs: int, t: Track): int {
    (nowMs / 1000) * 1000 - TrackStartTime(t).Floor * 1000
  }

  /** `endTimestamp`: the start plus the whole seconds of `getTrackEndTime`. */
  function EndStamp(nowMs: int, t: Track): Stamp {
    match TrackEndTime(t)
    case None => NotANumber
    case Some(e) => At(StartStamp(nowMs, t) + e.Floor * 1000)
  }

  function ListenLabel(rpc: RpcSettings, h: Helpers, fallback: string): string {
    if rpc.button != "" then h.truncateLabel(rpc.button) else fallback
  }

  /** The `state` line: the configured template, else the artists, else a
      placeholder. */
  function StateText(rpc: RpcSettings, t: Track, h: Helpers): string {
    if rpc.state != "" then h.fixStrings(h.replaceParams(rpc.state, t))
    else if Join(t.artists, ", ") == "" then h.fixStrings("Unknown Artist")
    else h.fixStrings(Join(t.artists, ", "))
  }

  /** The listen button of a track that has an album (or is a user upload):
      the file's URL for an upload, the desktop app's deep link otherwise. */
  function ListenButton(rpc: RpcSettings, t: Track, h: Helpers): Button
    requires t.trackSource != "UGC" ==> t.albumIds != []
  {
    if t.trackSource == "UGC" then Button(ListenLabel(rpc, h, FileDefaultLabel), t.url)
    else Button(ListenLabel(rpc, h, ListenDefaultLabel),
                "yandexmusic://album/" + h.encodeUri(t.albumIds[0]) + "/track/" + t.realId)
  }

  /** The details line of a neuromusic track: the suffix, added once. */
  function NeuroDetails(title: string): string {
    if EndsWith(title, NeuroSuffix) then title else title + NeuroSuffix
  }

  /** The `setTrack` updater of the neuromusic branch, applied to the title. */
  function SuffixTitle(title: string): string {
    if title != "" && EndsWith(title, NeuroSuffix) then title else title + NeuroSuffix
  }

  /** The activity before buttons and the neuromusic branch: the base object
      and the paused / playing timestamps (lines 826-864). */
  method BaseActivity(rpc: RpcSettings, appVersion: string, t: Track, nowMs: int, h: Helpers)
    returns (activity: Activity)
    ensures activity.kind == 2 && activity.largeImageKey == GetCoverImage(t) && activity.buttons == None
    ensures ShowsPause(t, rpc) ==>
      activity.smallImageText == "Paused" && activity.smallImageKey == PausedIcon
      && activity.details == h.fixStrings(t.title)
      && activity.startTimestamp == None && activity.endTimestamp == None
    ensures !ShowsPause(t, rpc) ==>
      activity.smallImageText == appVersion && activity.smallImageKey == DefaultCover
      && activity.details == (
        if rpc.details != "" then h.fixStrings(h.replaceParams(rpc.details, t))
        else h.fixStrings(if t.title != "" then t.title else "Unknown Track"))
    ensures !ShowsPause(t, rpc) && !IsGenerative(t) ==>
      activity.startTimestamp == Some(StartStamp(nowMs, t)) && activity.endTimestamp == Some(EndStamp(nowMs, t))
    ensures IsGenerative(t) ==> activity.startTimestamp == None && activity.endTimestamp == None
    ensures activity.state == Some(StateText(rpc, t, h))
  {
    var startTime := TrackStartTime(t);
    var endTime := TrackEndTime(t);
    var artistName := Join(t.artists, ", ");
    var startTimestamp := (nowMs / 1000) * 1000 - startTime.Floor * 1000;
    var endTimestamp := if endTime.Some? then At(startTimestamp + endTime.value.Floor * 1000) else NotANumber;
    var details :=
      if |rpc.details| > 0 then h.fixStrings(h.replaceParams(rpc.details, t))
      else h.fixStrings(if t.title != "" then t.title else "Unknown Track");
    var state :=
      if |rpc.state| > 0 then h.fixStrings(h.replaceParams(rpc.state, t))
      else h.fixStrings(if artistName != "" then artistName else "Unknown Artist");
    activity := Activity(2, GetCoverImage(t), DefaultCover, appVersion, details, Some(state), None, None, None);
    if t.status == "paused" && rpc.displayPause {
      activity := activity.(smallImageText := "Paused", smallImageKey := PausedIcon,
                            details := h.fixStrings(t.title), startTimestamp := None, endTimestamp := None);
    } else if !Contains(t.id, "generative") {
      activity := activity.(startTimestamp := Some(startTimestamp), endTimestamp := Some(endTimestamp));
    }
  }

  /** The `buttons` array (lines 866-902): `None` stands for the deleted
      field, and `thrown` for the TypeError of a listen button without album. */
  method CollectButtons(rpc: RpcSettings, t: Track, h: Helpers) returns (thrown: bool, buttons: Option<seq<Button>>)
    ensures thrown <==> MissingAlbum(t, rpc)
    ensures !thrown ==> (buttons == None <==> !ListenWanted(t, rpc) && !rpc.enableGithubButton)
    ensures !thrown && buttons.Some? ==>
      var b := buttons.value;
      1 <= |b| <= 2
      && (|b| == 2 <==> ListenWanted(t, rpc) && rpc.enableGithubButton)
      && (rpc.enableGithubButton ==> b[|b| - 1] == GithubButton)
      && (!ListenWanted(t, rpc) ==> b == [GithubButton])
      && (ListenWanted(t, rpc) ==> b[0] == ListenButton(rpc, t, h))
  {
    var generative := Contains(t.id, "generative");
    var list: seq<Button> := [];
    thrown := false;
    buttons := None;
    if t.trackSource != "UGC" && !generative && rpc.enableRpcButtonListen {
      if |t.albumIds| == 0 {
        thrown := true;
        return;
      }
      var linkTitle := t.albumIds[0];
      list := list + [Button(if rpc.button != "" then h.truncateLabel(rpc.button) else ListenDefaultLabel,
                             "yandexmusic://album/" + h.encodeUri(linkTitle) + "/track/" + t.realId)];
    } else if t.trackSource == "UGC" && !generative && rpc.enableRpcButtonListen {
      list := list + [Button(if rpc.button != "" then h.truncateLabel(rpc.button) else FileDefaultLabel, t.url)];
    }
    if rpc.enableGithubButton {
      list := list + [GithubButton];
    }
    buttons := if |list| == 0 then None else Some(list);
  }

  /** The neuromusic branch (lines 904-932): retitle the track, suffix the
      details, enlarge the cover and drop `state`. */
  method Neuromusic(activity: Activity, t: Track, h: Helpers) returns (a: Activity, retitled: string)
    ensures retitled == SuffixTitle(t.title)
    ensures a == activity.(details := h.fixStrings(NeuroDetails(t.title)), state := None,
      largeImageKey := if Contains(t.imageUrl, "%%") then "https://" + ReplaceFirst(t.imageUrl, "%%", "1000x1000")
                       else activity.largeImageKey)
  {
    retitled := if t.title != "" && EndsWith(t.title, NeuroSuffix) then t.title else t.title + NeuroSuffix;
    a := activity;
    if !EndsWith(t.title, NeuroSuffix) {
      a := a.(details := h.fixStrings(t.title + NeuroSuffix));
    } else {
      a := a.(details := h.fixStrings(t.title));
    }
    if Contains(t.imageUrl, "%%") {
      a := a.(largeImageKey := "https://" + ReplaceFirst(t.imageUrl, "%%", "1000x1000"));
    }
    a := a.(state := None);
  }

  /** The effect that mirrors the current track into Discord (lines 817-937);
      `nowMs` stands for `Date.now()`. */
  method UpdateActivity(rpc: RpcSettings, userId: string, appVersion: string, t: Track,
                        nowMs: int, h: Helpers) returns (act: RpcAction)
    ensures !RpcEnabled(rpc, userId) ==> act == Untouched
    ensures act == Cleared <==> RpcEnabled(rpc, userId) && ShouldClear(t, rpc)
    ensures act == Thrown <==> RpcEnabled(rpc, userId) && !ShouldClear(t, rpc) && MissingAlbum(t, rpc)
    ensures act.Publish? <==> RpcEnabled(rpc, userId) && !ShouldClear(t, rpc) && !MissingAlbum(t, rpc)
    ensures act.Publish? ==> act.activity.kind == 2
    // Paused with displayPause: the pause icon and no timestamps.
    ensures act.Publish? && ShowsPause(t, rpc) ==>
      act.activity.smallImageText == "Paused" && act.activity.smallImageKey == PausedIcon
      && act.activity.startTimestamp == None && act.activity.endTimestamp == None
    ensures act.Publish? && !ShowsPause(t, rpc) ==>
      act.activity.smallImageText == appVersion && act.activity.smallImageKey == DefaultCover
    // Playing: timestamps unless the track is generative.
    ensures act.Publish? && !ShowsPause(t, rpc) && !IsGenerative(t) ==>
      act.activity.startTimestamp == Some(StartStamp(nowMs, t))
      && act.activity.endTimestamp == Some(EndStamp(nowMs, t))
    ensures act.Publish? && IsGenerative(t) ==>
      act.activity.startTimestamp == None && act.activity.endTimestamp == None
    // Buttons: absent when none applies; listen button first, GitHub last.
    ensures act.Publish? ==>
      (act.activity.buttons == None <==> !ListenWanted(t, rpc) && !rpc.enableGithubButton)
    ensures act.Publish? && act.activity.buttons.Some? ==>
      var b := act.activity.buttons.value;
      1 <= |b| <= 2
      && (|b| == 2 <==> ListenWanted(t, rpc) && rpc.enableGithubButton)
      && (rpc.enableGithubButton ==> b[|b| - 1] == GithubButton)
      && (!ListenWanted(t, rpc) ==> b == [GithubButton])
      && (ListenWanted(t, rpc) ==> b[0] == ListenButton(rpc, t, h))
    // Texts: the neuromusic branch overrides details, drops state, retitles.
    ensures act.Publish? && IsNeuromusic(t) ==>
      act.activity.details == h.fixStrings(NeuroDetails(t.title))
      && act.activity.state == None
      && act.retitled == Some(SuffixTitle(t.title))
    ensures act.Publish? && !IsNeuromusic(t) ==>
      act.retitled == None
      && act.activity.details == (
        if ShowsPause(t, rpc) then h.fixStrings(t.title)
        else if rpc.details != "" then h.fixStrings(h.replaceParams(rpc.details, t))
        else h.fixStrings(t.title))
      && act.activity.state == Some(StateText(rpc, t, h))
    ensures act.Publish? ==>
      act.activity.largeImageKey ==
        if IsNeuromusic(t) && Contains(t.imageUrl, "%%")
        then "https://" + ReplaceFirst(t.imageUrl, "%%", "1000x1000")
        else GetCoverImage(t)
  {
    if !(rpc.status && userId != "-1") {
      return Untouched;
    }
    if ShouldClear(t, rpc) {
      return Cleared;
    }
    var activity := BaseActivity(rpc, appVersion, t, nowMs, h);
    var thrown, buttons := CollectButtons(rpc, t, h);
    if thrown {
      return Thrown;
    }
    activity := activity.(buttons := buttons);
    if |t.artists| == 0 && t.trackSource != "UGC" {
      var retitled;
      activity, retitled := Neuromusic(activity, t, h);
      return Publish(activity, Some(retitled));
    }
    return Publish(activity, None);
  }

  /** For the shown (non-empty) title, `setTrack`'s new title already carries
      the suffix, so the next run of the effect neither retitles it again nor
      changes the details line. */
  lemma {:induction false} RetitleIsStable(title: string)
    requires title != ""
    ensures SuffixTitle(SuffixTitle(title)) == SuffixTitle(title)
    ensures NeuroDetails(SuffixTitle(title)) == NeuroDetails(title)
    ensures EndsWith(SuffixTitle(title), NeuroSuffix)
  {
    if !EndsWith(title, NeuroSuffix) {
      var s := title + NeuroSuffix;
      assert s[|s| - |NeuroSuffix|..] == NeuroSuffix;
    }
  }

  /** With two timestamps the activity spans the track's length in whole
      seconds, starting the elapsed whole seconds before now. */
  lemma TimestampsSpanTrack(nowMs: int, t: Track)
    requires |t.timestamps| >= 2
    ensures EndStamp(nowMs, t).At?
    ensures EndStamp(nowMs, t).ms - StartStamp(nowMs, t) == t.timestamps[1].Floor * 1000
    ensures (nowMs / 1000) * 1000 - StartStamp(nowMs, t) == t.timestamps[0].Floor * 1000
  {
  }

  // ---------------------------------------------------------------------------
  // `send_track` de-duplication

  /** `lastSentTrack.current`: `null` fields until the first emission. */
  datatype LastSent = LastSent(title: Option<string>, status: Option<string>, played: Option<real>)

  const NothingSent := LastSent(None, None, None)

  function Snapshot(t: Track): LastSent {
    LastSent(Some(t.title), Some(t.status), Some(t.played))
  }

  /** The track differs from the last sent one in title, status or position. */
  predicate Differs(last: LastSent, t: Track) {
    last.title != Some(t.title) || last.status != Some(t.status) || last.played != Some(t.played)
  }

  /** The effect that emits `send_track`; `sent` records the emissions. */
  class TrackSender {
    var last: LastSent
    var sent: seq<Track>

    constructor()
      ensures last == NothingSent && sent == []
    {
      last := NothingSent;
      sent := [];
    }

    method Observe(connected: bool, sendTrack: bool, t: Track) returns (emitted: bool)
      modifies this
      ensures emitted <==> connected && sendTrack && t.title != "" && Differs(old(last), t)
      ensures sent == if emitted then old(sent) + [t] else old(sent)
      ensures last == if emitted then Snapshot(t) else old(last)
    {
      emitted := false;
      if connected && sendTrack && t.title != "" {
        if last.title != Some(t.title) || last.status != Some(t.status) || last.played != Some(t.played) {
          sent := sent + [t];
          last := Snapshot(t);
          emitted := true;
        }
      }
    }
  }

  /** A track is never re-sent unchanged; a change of title, status or
      position after a send is always noticed, and the first track is new. */
  lemma RepeatSuppressed(t: Track, u: Track)
    ensures !Differs(Snapshot(t), t)
    ensures Differs(Snapshot(t), u) <==> t.title != u.title || t.status != u.status || t.played != u.played
    ensures Differs(NothingSent, u)
  {
  }

  // ---------------------------------------------------------------------------
  // Mod updates (`fetchModInfo`)

  datatype ModInfo = ModInfo(modVersion: string)

  /** `currentApp.mod`: whether a mod is installed and its version, `""` when
      unknown. */
  datatype ModSettings = ModSettings(installed: bool, version: string)

  /** What `fetchModInfo` does with a reply: an invalid reply is only logged,
      an empty list gives the "no updates" toast, otherwise the list is stored
      and a notification may be shown. */
  datatype ModCheck = InvalidReply | NoUpdates | Updates(list: seq<ModInfo>, notify: bool)

  /** `compareVersions(a, b) > 0` for an abstract total order given by `rank`. */
  function IsUpdate(version: string, rank: string -> int): ModInfo -> bool {
    (m: ModInfo) => version == "" || rank(m.modVersion) > rank(version)
  }

  function ModRank(rank: string -> int): ModInfo -> int {
    (m: ModInfo) => rank(m.modVersion)
  }

  /** The filter and the stable newest-first sort. */
  function ModUpdates(mods: seq<ModInfo>, version: string, rank: string -> int): seq<ModInfo> {
    SortDesc(Filter(mods, IsUpdate(version, rank)), ModRank(rank))
  }

  /** The list holds the updates, each as often as offered, newest first; with
      no installed version it is the whole reply, reordered. */
  lemma ModUpdatesSpec(mods: seq<ModInfo>, version: string, rank: string -> int)
    ensures SortedDesc(ModUpdates(mods, version, rank), ModRank(rank))
    ensures multiset(ModUpdates(mods, version, rank)) == multiset(Filter(mods, IsUpdate(version, rank)))
    ensures forall i :: 0 <= i < |ModUpdates(mods, version, rank)| ==>
      ModUpdates(mods, version, rank)[i] in mods && IsUpdate(version, rank)(ModUpdates(mods, version, rank)[i])
    ensures version == "" ==> multiset(ModUpdates(mods, version, rank)) == multiset(mods)
  {
    var kept := Filter(mods, IsUpdate(version, rank));
    SortDescSpec(kept, ModRank(rank));
    FilterMembers(mods, IsUpdate(version, rank));
    var r := SortDesc(kept, ModRank(rank));
    forall i | 0 <= i < |r|
      ensures r[i] in mods && IsUpdate(version, rank)(r[i])
    {
      assert r[i] in multiset(kept);
      var k :| 0 <= k < |kept| && kept[k] == r[i];
    }
    if version == "" {
      FilterMultiset(mods, IsUpdate(version, rank));
      assert multiset(kept) == multiset(mods);
    }
  }

  /** No update is offered exactly when the list comes out empty. */
  lemma ModUpdatesEmpty(mods: seq<ModInfo>, version: string, rank: string -> int)
    requires |ModUpdates(mods, version, rank)| == 0
    ensures forall m :: m in mods ==> !IsUpdate(version, rank)(m)
  {
    ModUpdatesSpec(mods, version, rank);
    FilterMembers(mods, IsUpdate(version, rank));
    assert multiset(Filter(mods, IsUpdate(version, rank))) == multiset{};
  }

  /** The stored list starts with an update at least as new as any offered. */
  lemma ModUpdatesNewestFirst(mods: seq<ModInfo>, version: string, rank: string -> int)
    requires |ModUpdates(mods, version, rank)| > 0
    ensures forall m :: m in mods && IsUpdate(version, rank)(m) ==>
      rank(ModUpdates(mods, version, rank)[0].modVersion) >= rank(m.modVersion)
  {
    var info := ModUpdates(mods, version, rank);
    ModUpdatesSpec(mods, version, rank);
    FilterMembers(mods, IsUpdate(version, rank));
    forall m | m in mods && IsUpdate(version, rank)(m)
      ensures rank(info[0].modVersion) >= rank(m.modVersion)
    {
      var k :| 0 <= k < |mods| && mods[k] == m;
      assert m in multiset(info);
      var j :| 0 <= j < |info| && info[j] == m;
      if j > 0 {
        assert ModRank(rank)(info[0]) >= ModRank(rank)(info[j]);
      }
    }
  }

  /** JavaScript's `<` on strings: code unit by code unit. */
  predicate LexLess(a: string, b: string) {
    if a == [] then b != []
    else if b == [] then false
    else if a[0] != b[0] then a[0] < b[0]
    else LexLess(a[1..], b[1..])
  }

  /** The notification test as written: `installed && version < info[0]`,
      comparing the version strings character by character. */
  predicate NotifyAsWritten(current: ModSettings, info: seq<ModInfo>)
    requires |info| > 0
  {
    current.installed && LexLess(current.version, info[0].modVersion)
  }

  /** The test the filter above implies was meant: the newest entry is newer
      than the installed version under the same order. */
  predicate NotifyUpdate(current: ModSettings, info: seq<ModInfo>, rank: string -> int)
    requires |info| > 0
  {
    current.installed && IsUpdate(current.version, rank)(info[0])
  }

  /** `fetchModInfo` on a reply (`None` when `data.getMod` is missing). */
  function FetchModInfo(reply: Option<seq<ModInfo>>, current: ModSettings, rank: string -> int): (r: ModCheck)
    ensures reply.None? <==> r == InvalidReply
    ensures r == NoUpdates <==>
      reply.Some? && forall m :: m in reply.value ==> !IsUpdate(current.version, rank)(m)
    // The stored list holds exactly the updates and starts with the newest.
    ensures r.Updates? ==>
      |r.list| > 0
      && multiset(r.list) == multiset(Filter(reply.value, IsUpdate(current.version, rank)))
      && forall m :: m in reply.value && IsUpdate(current.version, rank)(m) ==>
           rank(r.list[0].modVersion) >= rank(m.modVersion)
    ensures r.Updates? ==> (r.notify <==> current.installed)
  {
    match reply
    case None => InvalidReply
    case Some(mods) =>
      var info := ModUpdates(mods, current.version, rank);
      ModUpdatesSpec(mods, current.version, rank);
      if |info| == 0 then
        ModUpdatesEmpty(mods, current.version, rank);
        NoUpdates
      else
        ModUpdatesNewestFirst(mods, current.version, rank);
        Updates(info, NotifyUpdate(current, info, rank))
  }

  /** The as-written test misses real updates: with "1.10.0" newer than
      "1.9.0" the list is `["1.10.0"]`, yet "1.9.0" is not less than "1.10.0"
      as a string, so no notification is shown. */
  lemma NotifyAsWrittenMissesUpdate(rank: string -> int)
    requires rank("1.10.0") > rank("1.9.0")
    ensures FetchModInfo(Some([ModInfo("1.10.0")]), ModSettings(true, "1.9.0"), rank)
         == Updates([ModInfo("1.10.0")], true)
    ensures !NotifyAsWritten(ModSettings(true, "1.9.0"), [ModInfo("1.10.0")])
  {
    var mods := [ModInfo("1.10.0")];
    assert Filter(mods, IsUpdate("1.9.0", rank)) == mods by {
      assert Filter(mods[1..], IsUpdate("1.9.0", rank)) == [];
    }
    assert SortDesc(mods, ModRank(rank)) == mods by {
      assert mods[..0] == [];
    }
    assert "1.9.0"[1..] == ".9.0" && "1.10.0"[1..] == ".10.0";
    assert ".9.0"[1..] == "9.0" && ".10.0"[1..] == "10.0";
    assert !LexLess("9.0", "10.0");
  }

  // ---------------------------------------------------------------------------
  // Authorization with retries (`authorize`)

  /** What the user query answers: `getMe` with or without an id, a network
      error, GraphQL errors (whether one is FORBIDDEN and whether one is
      DEPRECATED_VERSION), or any other exception. */
  datatype Reply = Me(hasId: bool) | NetworkError | GraphQLErrors(forbidden: bool, deprecated: bool) | OtherError

  /** One attempt's view of the world: `checkInternetAccess()` and the reply
      the query would give. */
  datatype Probe = Probe(online: bool, reply: Reply)

  /** The state `authorize` touches: the closure's `retryCount`, the loading
      flag, whether a token is stored, whether the user was set, and whether a
      "too many attempts" or "server unavailable" toast was shown. */
  datatype AuthState = AuthState(retryCount: int, loading: bool, hasToken: bool, authorized: bool, gaveUp: bool)

  datatype Attempted = Attempted(state: AuthState, ok: bool)

  function Start(maxRetry: int, hasToken: bool): AuthState {
    AuthState(maxRetry, true, hasToken, false, false)
  }

  /** The failures that are retried: no internet, or a network error. */
  predicate Retryable(s: AuthState, p: Probe) {
    s.hasToken && (!p.online || p.reply == NetworkError)
  }

  /** Replies that delete the token. */
  predicate DropsToken(p: Probe) {
    p.online && (p.reply == Me(false) || (p.reply.GraphQLErrors? && (p.reply.forbidden || p.reply.deprecated)))
  }

  function RetryOrGiveUp(s: AuthState): AuthState {
    if s.retryCount > 0 then s.(retryCount := s.retryCount - 1)
    else s.(loading := false, gaveUp := true)
  }

  /** `attemptAuthorization`. */
  function Attempt(s: AuthState, p: Probe): (r: Attempted)
    ensures r.ok <==> s.hasToken && p.online && p.reply == Me(true)
    ensures r.ok ==> r.state == s.(authorized := true)
    ensures r.state.retryCount == if Retryable(s, p) && s.retryCount > 0 then s.retryCount - 1 else s.retryCount
    ensures r.state.gaveUp <==> s.gaveUp || (Retryable(s, p) && s.retryCount <= 0)
    ensures Retryable(s, p) && s.retryCount <= 0 ==> !r.state.loading
    ensures Retryable(s, p) && s.retryCount > 0 ==> r.state == s.(retryCount := s.retryCount - 1)
    ensures r.state.hasToken <==> s.hasToken && !DropsToken(p)
    ensures !s.hasToken ==> r.state == s.(loading := false)
  {
    if !s.hasToken then Attempted(s.(loading := false), false)
    else if !p.online then Attempted(RetryOrGiveUp(s), false)
    else match p.reply
      case Me(hasId) =>
        if hasId then Attempted(s.(authorized := true), true)
        else Attempted(s.(loading := false, hasToken := false, authorized := false), false)
      case NetworkError => Attempted(RetryOrGiveUp(s), false)
      case GraphQLErrors(forbidden, deprecated) =>
        if forbidden || deprecated then Attempted(s.(hasToken := false, authorized := false), false)
        else Attempted(s, false)
      case OtherError => Attempted(s.(loading := false), false)
  }

  /** When the retry interval is cleared: as written, once authorized or once
      `retryCount === 0`; the corrected rule stops (or never starts) once the
      give-up branch has run instead. */
  datatype StopRule = AtZero | OnGiveUp

  /** One tick of the retry interval; `ok` says the interval is cleared. */
  function Tick(s: AuthState, p: Probe, rule: StopRule): (r: Attempted)
    ensures !s.hasToken ==> r == Attempted(s.(loading := false), true)
    ensures s.hasToken && rule == AtZero ==>
      r.state == Attempt(s, p).state && (r.ok <==> Attempt(s, p).ok || r.state.retryCount == 0)
    ensures s.hasToken && rule == OnGiveUp ==>
      r.state == Attempt(s, p).state && (r.ok <==> Attempt(s, p).ok || r.state.gaveUp)
  {
    if !s.hasToken then Attempted(s.(loading := false), true)
    else
      var a := Attempt(s, p);
      var stop := match rule
        case AtZero => a.state.retryCount == 0
        case OnGiveUp => a.state.gaveUp;
      Attempted(a.state, a.ok || stop)
  }

  /** The interval, fed one probe per tick, until it is cleared or the probes
      run out (`ok` then says whether it was cleared). */
  function Ticks(s: AuthState, probes: seq<Probe>, rule: StopRule): Attempted
    decreases |probes|
  {
    if probes == [] then Attempted(s, false)
    else
      var t := Tick(s, probes[0], rule);
      if t.ok then t else Ticks(t.state, probes[1..], rule)
  }

  /** `retryAuthorization` after `checkSleepMode`: one attempt, then the
      interval if it failed (under the corrected rule, only if it did not
      already give up). `ok` says nothing is left running. */
  function Authorize(s: AuthState, sleeping: bool, probes: seq<Probe>, rule: StopRule): Attempted {
    if sleeping then Attempted(s, true)
    else if probes == [] then Attempted(s, false)
    else
      var a := Attempt(s, probes[0]);
      if a.ok || (rule == OnGiveUp && a.state.gaveUp) then Attempted(a.state, true)
      else Ticks(a.state, probes[1..], rule)
  }

  predicate AllOffline(probes: seq<Probe>) {
    forall i :: 0 <= i < |probes| ==> !probes[i].online
  }

  lemma {:induction false} TicksOfflineAtZero(s: AuthState, probes: seq<Probe>)
    requires s.hasToken && s.loading && !s.gaveUp && s.retryCount >= 1
    requires AllOffline(probes)
    ensures Ticks(s, probes, AtZero).state.loading && !Ticks(s, probes, AtZero).state.gaveUp
    ensures |probes| >= s.retryCount ==> Ticks(s, probes, AtZero).ok
    decreases |probes|
  {
    if probes != [] {
      var t := Tick(s, probes[0], AtZero);
      assert t.state == s.(retryCount := s.retryCount - 1);
      if !t.ok {
        TicksOfflineAtZero(t.state, probes[1..]);
        assert AllOffline(probes[1..]) by {
          forall i | 0 <= i < |probes[1..]| ensures !probes[1..][i].online {
            assert probes[1..][i] == probes[i + 1];
          }
        }
      }
    }
  }

  /** As written, with at least two retries and the machine offline, the
      interval counts down to 0 and is cleared without ever reaching the
      give-up branch: the loading screen is never dismissed. */
  lemma {:induction false} OfflineAsWrittenNeverGivesUp(maxRetry: int, probes: seq<Probe>)
    requires maxRetry >= 2 && AllOffline(probes)
    ensures Authorize(Start(maxRetry, true), false, probes, AtZero).state.loading
    ensures !Authorize(Start(maxRetry, true), false, probes, AtZero).state.gaveUp
    ensures |probes| >= maxRetry ==> Authorize(Start(maxRetry, true), false, probes, AtZero).ok
  {
    if probes != [] {
      var a := Attempt(Start(maxRetry, true), probes[0]);
      assert AllOffline(probes[1..]) by {
        forall i | 0 <= i < |probes[1..]| ensures !probes[1..][i].online {
          assert probes[1..][i] == probes[i + 1];
        }
      }
      TicksOfflineAtZero(a.state, probes[1..]);
    }
  }

  lemma {:induction false} TicksOfflineOnGiveUp(s: AuthState, probes: seq<Probe>)
    requires s.hasToken && s.loading && !s.gaveUp && s.retryCount >= 0
    requires AllOffline(probes) && |probes| > s.retryCount
    ensures Ticks(s, probes, OnGiveUp).ok
    ensures Ticks(s, probes, OnGiveUp).state.gaveUp && !Ticks(s, probes, OnGiveUp).state.loading
    decreases |probes|
  {
    var t := Tick(s, probes[0], OnGiveUp);
    if !t.ok {
      assert AllOffline(probes[1..]) by {
        forall i | 0 <= i < |probes[1..]| ensures !probes[1..][i].online {
          assert probes[1..][i] == probes[i + 1];
        }
      }
      TicksOfflineOnGiveUp(t.state, probes[1..]);
    }
  }

  /** With the corrected rule, staying offline for one attempt more than the
      retries allowed always reaches the give-up: loading ends and nothing is
      left running. */
  lemma {:induction false} OfflineFixedGivesUp(maxRetry: int, probes: seq<Probe>)
    requires maxRetry >= 0 && AllOffline(probes) && |probes| > maxRetry
    ensures Authorize(Start(maxRetry, true), false, probes, OnGiveUp).ok
    ensures Authorize(Start(maxRetry, true), false, probes, OnGiveUp).state.gaveUp
    ensures !Authorize(Start(maxRetry, true), false, probes, OnGiveUp).state.loading
  {
    var a := Attempt(Start(maxRetry, true), probes[0]);
    if maxRetry > 0 {
      assert AllOffline(probes[1..]) by {
        forall i | 0 <= i < |probes[1..]| ensures !probes[1..][i].online {
          assert probes[1..][i] == probes[i + 1];
        }
      }
      TicksOfflineOnGiveUp(a.state, probes[1..]);
    }
  }

  /** The closure state of `authorize` as an object: `attemptAuthorization`
      and the retry interval update it in place. */
  class Authorizer {
    var retryCount: int
    var loading: bool
    var hasToken: bool
    var authorized: bool
    var gaveUp: bool

    function State(): AuthState
      reads this
    {
      AuthState(retryCount, loading, hasToken, authorized, gaveUp)
    }

    constructor(maxRetry: int, tokenStored: bool)
      ensures State() == Start(maxRetry, tokenStored)
    {
      retryCount := maxRetry;
      loading := true;
      hasToken := tokenStored;
      authorized := false;
      gaveUp := false;
    }

    method GiveUpOrRetry()
      modifies this
      ensures State() == RetryOrGiveUp(old(State()))
    {
      if retryCount > 0 {
        retryCount := retryCount - 1;
      } else {
        gaveUp := true;
        loading := false;
      }
    }

    method AttemptAuthorization(p: Probe) returns (ok: bool)
      modifies this
      ensures Attempted(State(), ok) == Attempt(old(State()), p)
    {
      ok := false;
      if !hasToken {
        loading := false;
        return;
      }
      if !p.online {
        GiveUpOrRetry();
        return;
      }
      match p.reply {
        case Me(hasId) =>
          if hasId {
            authorized := true;
            ok := true;
          } else {
            loading := false;
            hasToken := false;
            authorized := false;
          }
        case NetworkError =>
          GiveUpOrRetry();
        case GraphQLErrors(forbidden, deprecated) =>
          if forbidden || deprecated {
            hasToken := false;
            authorized := false;
          }
        case OtherError =>
          loading := false;
      }
    }

    /** `retryAuthorization` as written, one probe per attempt; `stopped` says
        nothing is left running once the probes are used up. */
    method RetryAuthorization(sleeping: bool, probes: seq<Probe>) returns (stopped: bool)
      modifies this
      ensures Attempted(State(), stopped) == Authorize(old(State()), sleeping, probes, AtZero)
    {
      if sleeping {
        return true;
      }
      if |probes| == 0 {
        return false;
      }
      var ok := AttemptAuthorization(probes[0]);
      if ok {
        return true;
      }
      ghost var s1 := State();
      stopped := false;
      var i := 1;
      while i < |probes| && !stopped
        invariant 1 <= i <= |probes|
        invariant !stopped ==> Ticks(State(), probes[i..], AtZero) == Ticks(s1, probes[1..], AtZero)
        invariant stopped ==> Attempted(State(), true) == Ticks(s1, probes[1..], AtZero)
        decreases |probes| - i
      {
        ghost var before := State();
        assert probes[i..][1..] == probes[i + 1..];
        if !hasToken {
          loading := false;
          stopped := true;
        } else {
          ok := AttemptAuthorization(probes[i]);
          if ok || retryCount == 0 {
            stopped := true;
          }
        }
        assert Attempted(State(), stopped) == Tick(before, probes[i], AtZero);
        i := i + 1;
      }
    }
  }
}
