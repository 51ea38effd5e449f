/** The user profile modal (src/renderer/components/userProfileModal/index.tsx):
    the status colour and tooltip, the order in which `renderContent` picks
    what to show, the query effect and the banner height. */
module ProfileModal {
  import opened Wrappers
  import opened Strings
  import HeightAnimation

  /** `user.currentTrack`; `artists` are the names, `None` when absent. */
  datatype CurrentTrack = CurrentTrack(status: string, title: string, artists: Option<seq<string>>)

  /** The fields of a user that the modal reads; an unset `lastOnline` is "". */
  datatype User = User(id: string, status: string, lastOnline: string, currentTrack: Option<CurrentTrack>)

  const PlayingColor := "#FFD562"
  const OnlineColor := "#62FF79"
  const OfflineColor := "#B0B0B0"

  const ListeningPrefix := "Слушает"
  const OnlineText := "Сейчас в сети"
  const LastSeenPrefix := "Был в сети: "
  const OfflineText := "Не в сети"

  predicate IsPlaying(u: User) {
    u.currentTrack.Some? && u.currentTrack.value.status == "playing"
  }

  /** `getStatusColor`: playing beats online beats offline. */
  function GetStatusColor(u: User): (r: string)
    ensures r == PlayingColor <==> IsPlaying(u)
    ensures r == OnlineColor <==> !IsPlaying(u) && u.status == "online"
    ensures r == OfflineColor <==> !IsPlaying(u) && u.status != "online"
  {
    if IsPlaying(u) then PlayingColor
    else if u.status == "online" then OnlineColor
    else OfflineColor
  }

  /** The artists part of the tooltip: joined names, or what JavaScript
      prints for a missing list. */
  function ArtistsText(artists: Option<seq<string>>): string {
    match artists
    case None => "undefined"
    case Some(names) => Join(names, ", ")
  }

  /** `getStatusTooltip`, with `timeAgo` (applied to `Number(lastOnline)`) a
      parameter. */
  function GetStatusTooltip(u: User, timeAgo: string -> string): (r: string)
    ensures IsPlaying(u) && u.currentTrack.value.title != "" ==>
      r == "Слушает: " + u.currentTrack.value.title + " — " + ArtistsText(u.currentTrack.value.artists)
    ensures IsPlaying(u) && u.currentTrack.value.title == "" ==> r == "Слушает музыку"
    ensures IsPlaying(u) <==> IsPrefix(ListeningPrefix, r)
    ensures r == OnlineText <==> !IsPlaying(u) && u.status == "online"
    ensures IsPrefix(LastSeenPrefix, r) <==> !IsPlaying(u) && u.status != "online" && u.lastOnline != ""
    ensures !IsPlaying(u) && u.status != "online" && u.lastOnline != "" ==> r == LastSeenPrefix + timeAgo(u.lastOnline)
    ensures r == OfflineText <==> !IsPlaying(u) && u.status != "online" && u.lastOnline == ""
  {
    if IsPlaying(u) then
      var track := u.currentTrack.value;
      if track.title != "" then
        var r := "Слушает: " + track.title + " — " + ArtistsText(track.artists);
        assert r[..|ListeningPrefix|] == ListeningPrefix;
        assert r[1] != OnlineText[1] && r[0] != LastSeenPrefix[0];
        r
      else
        assert "Слушает музыку"[0] != LastSeenPrefix[0];
        "Слушает музыку"
    else if u.status == "online" then
      assert OnlineText[1] != ListeningPrefix[1];
      OnlineText
    else if u.lastOnline != "" then
      var r := LastSeenPrefix + timeAgo(u.lastOnline);
      assert r[..|LastSeenPrefix|] == LastSeenPrefix;
      assert r[0] != OnlineText[0];
      r
    else
      assert OfflineText[0] != ListeningPrefix[0];
      OfflineText
  }

  /** The dot and its tooltip tell the same story: the listening colour goes
      with a listening tooltip, the online colour with "online", the grey
      colour with a last-seen or offline text. */
  lemma ColorMatchesTooltip(u: User, timeAgo: string -> string)
    ensures GetStatusColor(u) == PlayingColor <==> IsPrefix(ListeningPrefix, GetStatusTooltip(u, timeAgo))
    ensures GetStatusColor(u) == OnlineColor <==> GetStatusTooltip(u, timeAgo) == OnlineText
    ensures GetStatusColor(u) == OfflineColor <==>
      GetStatusTooltip(u, timeAgo) == OfflineText || IsPrefix(LastSeenPrefix, GetStatusTooltip(u, timeAgo))
  {
  }

  // ---------------------------------------------------------------------------
  // The modal's state and `renderContent`

  /** A stored error: the string "User not found", or a rejected query's
      error with its `message` ("" when it has none) and its `String(...)`. */
  datatype ErrorValue = Text(text: string) | Failure(message: string, asString: string)

  function ErrorText(e: ErrorValue): string {
    match e
    case Text(s) => s
    case Failure(message, asString) => if message != "" then message else asString
  }

  datatype ModalState = ModalState(user: User, loading: bool, error: Option<ErrorValue>,
                                   bannerHeight: int, bannerExpanded: bool)

  const BannerOpenHeight := 300
  const BannerClosedHeight := 184

  /** The state on opening, with `userInitials` a parameter. */
  function Initial(initials: User): ModalState {
    ModalState(initials, false, None, BannerClosedHeight, false)
  }

  /** What `renderContent` shows. */
  datatype View = Loading | ErrorView(text: string) | NotFound | Profile(color: string, tooltip: string)

  predicate HasNoUser(u: User) {
    u.id == "" || u.id == "-1"
  }

  /** Loading first, then an error, then a missing user, then the profile. */
  function RenderContent(s: ModalState, timeAgo: string -> string): (r: View)
    ensures r == Loading <==> s.loading
    ensures r.ErrorView? <==> !s.loading && s.error.Some?
    ensures r.ErrorView? ==> r.text == ErrorText(s.error.value)
    ensures r == NotFound <==> !s.loading && s.error.None? && HasNoUser(s.user)
    ensures r.Profile? <==> !s.loading && s.error.None? && !HasNoUser(s.user)
    ensures r.Profile? ==> r.color == GetStatusColor(s.user) && r.tooltip == GetStatusTooltip(s.user, timeAgo)
  {
    if s.loading then Loading
    else if s.error.Some? then ErrorView(ErrorText(s.error.value))
    else if s.user.id == "" || s.user.id == "-1" then NotFound
    else Profile(GetStatusColor(s.user), GetStatusTooltip(s.user, timeAgo))
  }

  /** The query effect's start: only an open modal with a user name queries,
      and it first resets the user, raises loading and clears the error. */
  function BeginQuery(s: ModalState, isOpen: bool, username: string, initials: User): (r: ModalState)
    ensures !isOpen || username == "" ==> r == s
    ensures isOpen && username != "" ==>
      r.user == initials && r.loading && r.error == None
      && r.bannerHeight == s.bannerHeight && r.bannerExpanded == s.bannerExpanded
  {
    if !isOpen || username == "" then s
    else s.(user := initials, loading := true, error := None)
  }

  /** How the query settles: a `null` user, a user, or a rejection. */
  datatype QueryReply = NullUser | Found(user: User) | Rejected(error: ErrorValue)

  /** `.then`, `.catch` and `.finally`: loading is lowered in every case. */
  function FinishQuery(s: ModalState, reply: QueryReply): (r: ModalState)
    ensures !r.loading
    ensures reply == NullUser ==> r.error == Some(Text("User not found")) && r.user == s.user
    ensures reply.Found? ==> r.user == reply.user && r.error == s.error
    ensures reply.Rejected? ==> r.error == Some(reply.error) && r.user == s.user
    ensures r.bannerHeight == s.bannerHeight && r.bannerExpanded == s.bannerExpanded
  {
    match reply
    case NullUser => s.(error := Some(Text("User not found")), loading := false)
    case Found(u) => s.(user := u, loading := false)
    case Rejected(e) => s.(error := Some(e), loading := false)
  }

  /** A query in flight shows the loading text; once it settles the modal
      shows the error for a missing user or a rejection, and otherwise the
      profile, or "not found" for a user without a real id. */
  lemma QueryOutcomeShown(s: ModalState, username: string, initials: User, reply: QueryReply,
                          timeAgo: string -> string)
    requires username != ""
    ensures RenderContent(BeginQuery(s, true, username, initials), timeAgo) == Loading
    ensures var v := RenderContent(FinishQuery(BeginQuery(s, true, username, initials), reply), timeAgo);
      match reply
      case NullUser => v == ErrorView("User not found")
      case Rejected(e) => v == ErrorView(ErrorText(e))
      case Found(u) =>
        if HasNoUser(u) then v == NotFound
        else v == Profile(GetStatusColor(u), GetStatusTooltip(u, timeAgo))
  {
  }

  /** Before any query the modal shows the initial user (its profile, or
      "not found" when it has no real id), and the collapsed banner is at
      rest. */
  lemma InitialAtRest(initials: User, timeAgo: string -> string)
    ensures RenderContent(Initial(initials), timeAgo)
         == if HasNoUser(initials) then NotFound
            else Profile(GetStatusColor(initials), GetStatusTooltip(initials, timeAgo))
    ensures BannerStep(Initial(initials)) == Initial(initials)
  {
  }

  // ---------------------------------------------------------------------------
  // The banner

  /** `toggleBanner`. */
  function ToggleBanner(s: ModalState): (r: ModalState)
    ensures r.bannerExpanded == !s.bannerExpanded
    ensures r == s.(bannerExpanded := r.bannerExpanded)
  {
    s.(bannerExpanded := !s.bannerExpanded)
  }

  /** One tick of the banner interval: toward 300 expanded, 184 collapsed. */
  function BannerStep(s: ModalState): (r: ModalState)
    ensures var t := if s.bannerExpanded then BannerOpenHeight else BannerClosedHeight;
      ((s.bannerHeight <= r.bannerHeight <= t) || (t <= r.bannerHeight <= s.bannerHeight))
      && (r.bannerHeight == t || HeightAnimation.Dist(r.bannerHeight, t) == HeightAnimation.Dist(s.bannerHeight, t) - 1)
    ensures r == s.(bannerHeight := r.bannerHeight)
  {
    s.(bannerHeight := HeightAnimation.Step(s.bannerHeight, s.bannerExpanded, BannerOpenHeight, BannerClosedHeight))
  }

  /** However it was interrupted, the banner rests at its target after at
      most 116 ticks (the distance between the two heights) from anywhere in
      between, and stays there. */
  lemma BannerSettles(s: ModalState, n: nat)
    requires BannerClosedHeight <= s.bannerHeight <= BannerOpenHeight
    requires n >= BannerOpenHeight - BannerClosedHeight
    ensures HeightAnimation.Ticks(s.bannerHeight, n, s.bannerExpanded, BannerOpenHeight, BannerClosedHeight)
         == if s.bannerExpanded then BannerOpenHeight else BannerClosedHeight
  {
    HeightAnimation.ReachesTarget(s.bannerHeight, n, s.bannerExpanded, BannerOpenHeight, BannerClosedHeight);
  }
}
