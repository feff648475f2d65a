/** The play-session state machine of src/media_monitor.rs: one poll of the system's "now playing"
    information turns into at most one current play session and the events to send
    (now playing, scrobble, or a request to ask the user about an unknown application).
    The now-playing snapshot and the clock are parameters of a poll; fetching them is not modelled. */
module MediaMonitor {
  import opened Wrappers
  import Config
  import opened Scrobbler
  import opened TextCleanup

  /** A track shorter than this, in seconds, is never scrobbled. */
  const MinTrackDuration: nat := 30

  /** A track is scrobbled after this many seconds at the latest. */
  const ScrobbleTimeThreshold: nat := 240

  datatype AppFilterAction = Allow | Ignore | PromptUser

  // ---------------------------------------------------------------------------
  // The play session

  /** The track being played and what has been sent for it. Times are whole seconds;
      `infoUpdateTime` is the player's "last updated" stamp, only ever compared for equality. */
  datatype PlaySession = PlaySession(
    track: Track,
    bundleId: Option<string>,
    startedAt: nat,
    duration: nat,
    scrobbled: bool,
    nowPlayingSent: bool,
    infoUpdateTime: Option<nat>)
  {
    /** `elapsed_seconds`: the time since the session started, never negative. */
    function ElapsedSeconds(now: nat): (r: nat)
      ensures startedAt <= now ==> startedAt + r == now
      ensures now < startedAt ==> r == 0
    {
      if now >= startedAt then now - startedAt else 0
    }

    /** How long the track must have played: `threshold` percent of it, but never more than four minutes. */
    function ScrobbleAt(threshold: nat): (r: nat)
      ensures r <= ScrobbleTimeThreshold && 100 * r <= duration * threshold
      ensures r == ScrobbleTimeThreshold || duration * threshold < 100 * (r + 1)
    {
      var product := duration * threshold;
      var thresholdTime := product / 100;
      assert product == 100 * thresholdTime + product % 100;
      if thresholdTime < ScrobbleTimeThreshold then thresholdTime else ScrobbleTimeThreshold
    }

    /** `should_scrobble` */
    predicate ShouldScrobble(threshold: Config.U8, now: nat) {
      !scrobbled && duration >= MinTrackDuration && ElapsedSeconds(now) >= ScrobbleAt(threshold)
    }

    /** `should_send_now_playing` */
    predicate ShouldSendNowPlaying() {
      !nowPlayingSent
    }
  }

  /** `PlaySession::new`, started at `now`. */
  function NewSession(track: Track, bundleId: Option<string>, duration: nat, infoUpdateTime: Option<nat>, now: nat)
    : (s: PlaySession)
    ensures s.track == track && s.bundleId == bundleId && s.duration == duration && s.infoUpdateTime == infoUpdateTime
    ensures s.startedAt == now && s.ElapsedSeconds(now) == 0
    ensures !s.scrobbled && !s.nowPlayingSent && s.ShouldSendNowPlaying()
  {
    PlaySession(track, bundleId, now, duration, false, false, infoUpdateTime)
  }

  // ---------------------------------------------------------------------------
  // Snapshots and events

  /** The fields of the player's now-playing information that a poll looks at. */
  datatype NowPlayingInfo = NowPlayingInfo(
    title: Option<string>,
    artist: Option<string>,
    album: Option<string>,
    duration: Option<nat>,
    isPlaying: Option<bool>,
    bundleId: Option<string>,
    infoUpdateTime: Option<nat>)

  datatype NowPlaying = NowPlaying(track: Track, bundleId: Option<string>)

  datatype ScrobbleEvent = ScrobbleEvent(track: Track, startedAt: nat, bundleId: Option<string>)

  /** `MediaEvents` */
  datatype MediaEvents = MediaEvents(
    nowPlaying: Option<NowPlaying>,
    scrobble: Option<ScrobbleEvent>,
    unknownApp: Option<string>)

  /** `MediaEvents::default()` */
  const NoEvents: MediaEvents := MediaEvents(None, None, None)

  // ---------------------------------------------------------------------------
  // The application filter

  /** No bundle id, or an empty one. */
  predicate UnknownApp(bundleId: Option<string>) {
    bundleId.None? || bundleId.value == ""
  }

  /** `should_scrobble_app`: unknown sources follow `scrobble_unknown`; a known one is allowed if
      listed as allowed, ignored if listed as ignored, and otherwise prompted for or allowed. */
  function ShouldScrobbleApp(bundleId: Option<string>, filter: Config.AppFilteringConfig): (r: AppFilterAction)
    ensures r == PromptUser <==>
      !UnknownApp(bundleId) && filter.promptForNewApps
      && bundleId.value !in filter.allowedApps && bundleId.value !in filter.ignoredApps
    ensures r == Ignore <==>
      if UnknownApp(bundleId) then !filter.scrobbleUnknown
      else bundleId.value !in filter.allowedApps && bundleId.value in filter.ignoredApps
  {
    match bundleId
    case None => if filter.scrobbleUnknown then Allow else Ignore
    case Some(id) =>
      if id == "" then
        if filter.scrobbleUnknown then Allow else Ignore
      else if id in filter.allowedApps then Allow
      else if id in filter.ignoredApps then Ignore
      else if filter.promptForNewApps then PromptUser
      else Allow
  }

  // ---------------------------------------------------------------------------
  // From a snapshot to a track

  /** `media_info_to_track`: needs a title and an artist; title, artist and album are cleaned,
      the duration is taken as it is. */
  function TrackOf(cleaner: TextCleaner, info: NowPlayingInfo): (r: Option<Track>)
    ensures r.Some? <==> info.title.Some? && info.artist.Some?
    ensures r.Some? ==> r.value.duration == info.duration && (r.value.album.Some? <==> info.album.Some?)
  {
    if info.title.None? || info.artist.None? then None
    else Some(Track(cleaner.Cleaned(info.title.value), cleaner.Cleaned(info.artist.value),
                    cleaner.CleanOption(info.album), info.duration))
  }

  // ---------------------------------------------------------------------------
  // One poll

  /** Whether a poll starts a new session: there is none, or the track or the update stamp changed. */
  predicate IsNewTrack(session: Option<PlaySession>, track: Track, infoUpdateTime: Option<nat>) {
    match session
    case None => true
    case Some(s) => s.track != track || s.infoUpdateTime != infoUpdateTime
  }

  /** `poll`: the session after one poll and the events it emits. */
  function Step(session: Option<PlaySession>, mediaInfo: Option<NowPlayingInfo>, filter: Config.AppFilteringConfig,
                threshold: Config.U8, cleaner: TextCleaner, now: nat): (Option<PlaySession>, MediaEvents)
  {
    match mediaInfo
    case None => (None, NoEvents)
    case Some(info) =>
      if !info.isPlaying.UnwrapOr(false) then (session, NoEvents)
      else match TrackOf(cleaner, info)
        case None => (session, NoEvents)
        case Some(track) =>
          match ShouldScrobbleApp(info.bundleId, filter)
          case Ignore => (session, NoEvents)
          case PromptUser => (session, NoEvents.(unknownApp := info.bundleId))
          case Allow =>
            if IsNewTrack(session, track, info.infoUpdateTime) then
              var started := NewSession(track, info.bundleId, track.duration.UnwrapOr(0), info.infoUpdateTime, now);
              (Some(started.(nowPlayingSent := true)), NoEvents.(nowPlaying := Some(NowPlaying(track, info.bundleId))))
            else
              var s := session.value;
              if s.ShouldScrobble(threshold, now) then
                (Some(s.(scrobbled := true)), NoEvents.(scrobble := Some(ScrobbleEvent(s.track, s.startedAt, s.bundleId))))
              else if s.ShouldSendNowPlaying() then
                (Some(s.(nowPlayingSent := true)), NoEvents.(nowPlaying := Some(NowPlaying(s.track, s.bundleId))))
              else
                (session, NoEvents)
  }

  /** What every session `poll` creates satisfies: "now playing" has been sent, and the session's
      duration is the track's, an unknown one counting as 0. */
  predicate Consistent(session: Option<PlaySession>) {
    session.Some? ==> session.value.nowPlayingSent && session.value.duration == session.value.track.duration.UnwrapOr(0)
  }

  // ---------------------------------------------------------------------------
  // The monitor

  class MediaMonitor {
    const scrobbleThreshold: Config.U8
    const textCleaner: TextCleaner
    var currentSession: Option<PlaySession>

    ghost predicate Valid()
      reads this
    {
      Consistent(currentSession)
    }

    /** `MediaMonitor::new`: no session yet. */
    constructor(scrobbleThreshold: Config.U8, textCleaner: TextCleaner)
      ensures this.scrobbleThreshold == scrobbleThreshold && this.textCleaner == textCleaner
      ensures currentSession == None && Valid()
    {
      this.scrobbleThreshold := scrobbleThreshold;
      this.textCleaner := textCleaner;
      currentSession := None;
    }

    /** `media_info_to_track`, running the cleaner. */
    method MediaInfoToTrack(info: NowPlayingInfo) returns (track: Option<Track>)
      ensures track == TrackOf(textCleaner, info)
    {
      if info.title.None? || info.artist.None? {
        return None;
      }
      var title := textCleaner.Clean(info.title.value);
      var artist := textCleaner.Clean(info.artist.value);
      var album := textCleaner.CleanOption(info.album);
      return Some(Track(title, artist, album, info.duration));
    }

    /** `poll`, given the snapshot the player reports (if any) and the current time. */
    method Poll(mediaInfo: Option<NowPlayingInfo>, appFiltering: Config.AppFilteringConfig, now: nat)
      returns (events: MediaEvents)
      modifies this
      ensures (currentSession, events) == Step(old(currentSession), mediaInfo, appFiltering, scrobbleThreshold, textCleaner, now)
      ensures old(Valid()) ==> Valid()
    {
      events := NoEvents;
      if mediaInfo.Some? {
        var info := mediaInfo.value;
        var isPlaying := info.isPlaying.UnwrapOr(false);
        if !isPlaying {
          return;
        }
        var track := MediaInfoToTrack(info);
        if track.Some? {
          var t := track.value;
          var duration := t.duration.UnwrapOr(0);
          var bundleId := info.bundleId;
          match ShouldScrobbleApp(bundleId, appFiltering) {
            case Ignore =>
              return;
            case PromptUser =>
              if bundleId.Some? {
                events := events.(unknownApp := Some(bundleId.value));
              }
              return;
            case Allow =>
          }
          var isNewTrack := match currentSession
            case None => true
            case Some(session) => session.track != t || session.infoUpdateTime != info.infoUpdateTime;
          if isNewTrack {
            var newSession := NewSession(t, bundleId, duration, info.infoUpdateTime, now);
            newSession := newSession.(nowPlayingSent := true);
            currentSession := Some(newSession);
            events := events.(nowPlaying := Some(NowPlaying(t, bundleId)));
          } else if currentSession.Some? {
            var session := currentSession.value;
            if session.ShouldScrobble(scrobbleThreshold, now) {
              events := events.(scrobble := Some(ScrobbleEvent(session.track, session.startedAt, session.bundleId)));
              currentSession := Some(session.(scrobbled := true));
            } else if session.ShouldSendNowPlaying() {
              events := events.(nowPlaying := Some(NowPlaying(session.track, session.bundleId)));
              currentSession := Some(session.(nowPlayingSent := true));
            }
          }
        }
      } else {
        if currentSession.Some? {
          currentSession := None;
        }
      }
    }
  }

  // ---------------------------------------------------------------------------
  // The scrobble threshold

  /** The threshold rule without the integer division: a session is due once it has played four
      minutes, or once `elapsed + 1` seconds exceed `threshold` percent of the track. */
  lemma ScrobbleRule(s: PlaySession, threshold: Config.U8, now: nat)
    ensures s.ShouldScrobble(threshold, now) <==>
      && !s.scrobbled
      && s.duration >= MinTrackDuration
      && (s.ElapsedSeconds(now) >= ScrobbleTimeThreshold || 100 * (s.ElapsedSeconds(now) + 1) > s.duration * threshold)
  {
    var e, x := s.ElapsedSeconds(now), s.duration * threshold;
    var q := x / 100;
    assert x == 100 * q + x % 100;
    if e >= q {
      assert 100 * (e + 1) > x;
    } else {
      assert 100 * (e + 1) <= 100 * q;
    }
  }

  /** Once due, a session stays due as time goes on. */
  lemma ScrobbleStaysDue(s: PlaySession, threshold: Config.U8, now: nat, later: nat)
    requires now <= later && s.ShouldScrobble(threshold, now)
    ensures s.ShouldScrobble(threshold, later)
  {
  }

  /** Four minutes of play always suffice, whatever the percentage. */
  lemma FourMinutesSuffice(s: PlaySession, threshold: Config.U8, now: nat)
    requires !s.scrobbled && s.duration >= MinTrackDuration
    requires s.ElapsedSeconds(now) >= ScrobbleTimeThreshold
    ensures s.ShouldScrobble(threshold, now)
  {
  }

  /** A track shorter than 30 seconds is never due, and neither is a scrobbled session. */
  lemma NeverDue(s: PlaySession, threshold: Config.U8, now: nat)
    requires s.duration < MinTrackDuration || s.scrobbled
    ensures !s.ShouldScrobble(threshold, now)
  {
  }

  /** A 200-second track at 50% is due after 100 seconds and not after 99; a 600-second track at 80%
      is capped at four minutes. */
  lemma ThresholdExamples(s: PlaySession)
    requires !s.scrobbled
    ensures s.duration == 200 ==> s.ShouldScrobble(50, s.startedAt + 100) && !s.ShouldScrobble(50, s.startedAt + 99)
    ensures s.duration == 600 ==> s.ShouldScrobble(80, s.startedAt + 240) && !s.ShouldScrobble(80, s.startedAt + 239)
  {
    if s.duration == 200 {
      assert s.ScrobbleAt(50) == 100;
    }
    if s.duration == 600 {
      assert s.ScrobbleAt(80) == 240;
    }
  }

  // ---------------------------------------------------------------------------
  // The application filter

  /** The filter with the two lists checked the other way round. */
  function IgnoredFirst(bundleId: Option<string>, filter: Config.AppFilteringConfig): AppFilterAction {
    if UnknownApp(bundleId) then (if filter.scrobbleUnknown then Allow else Ignore)
    else if bundleId.value in filter.ignoredApps then Ignore
    else if bundleId.value in filter.allowedApps then Allow
    else if filter.promptForNewApps then PromptUser
    else Allow
  }

  /** An id on both lists is allowed; an id on neither is prompted for only when prompting is on. */
  lemma FilterPrecedence(id: string, filter: Config.AppFilteringConfig)
    requires id != ""
    ensures id in filter.allowedApps ==> ShouldScrobbleApp(Some(id), filter) == Allow
    ensures id !in filter.allowedApps && id !in filter.ignoredApps ==>
      ShouldScrobbleApp(Some(id), filter) == if filter.promptForNewApps then PromptUser else Allow
    ensures ShouldScrobbleApp(None, filter) == ShouldScrobbleApp(Some(""), filter)
  {
  }

  /** In a configuration that validates no id is on both lists, so the order of the two checks is immaterial. */
  lemma ListOrderImmaterialWhenValid(c: Config.Config, bundleId: Option<string>)
    requires Config.Validate(c).Pass?
    ensures ShouldScrobbleApp(bundleId, c.appFiltering) == IgnoredFirst(bundleId, c.appFiltering)
  {
    if !UnknownApp(bundleId) && bundleId.value in c.appFiltering.allowedApps {
      assert bundleId.value !in c.appFiltering.ignoredApps;
    }
  }

  // ---------------------------------------------------------------------------
  // From a snapshot to a track

  /** With cleanup disabled the track carries the reported strings unchanged. */
  lemma RawTrackWhenCleanupDisabled(cleaner: TextCleaner, info: NowPlayingInfo)
    requires !cleaner.enabled && info.title.Some? && info.artist.Some?
    ensures TrackOf(cleaner, info) == Some(Track(info.title.value, info.artist.value, info.album, info.duration))
  {
    match info.album
    case None =>
    case Some(a) =>
  }

  // ---------------------------------------------------------------------------
  // Properties of one poll

  /** A snapshot that is not playing, `is_playing` unknown included, changes nothing and emits nothing:
      the session, its start time included, survives the pause. */
  lemma PausedKeepsSession(session: Option<PlaySession>, info: NowPlayingInfo, filter: Config.AppFilteringConfig,
                           threshold: Config.U8, cleaner: TextCleaner, now: nat)
    requires info.isPlaying != Some(true)
    ensures Step(session, Some(info), filter, threshold, cleaner, now) == (session, NoEvents)
  {
  }

  /** No snapshot at all (nothing is playing) clears the session and emits nothing. */
  lemma NoMediaClearsSession(session: Option<PlaySession>, filter: Config.AppFilteringConfig,
                             threshold: Config.U8, cleaner: TextCleaner, now: nat)
    ensures Step(session, None, filter, threshold, cleaner, now) == (None, NoEvents)
  {
  }

  /** A snapshot without title or artist, or from an ignored application, changes nothing and emits nothing. */
  lemma UnusableSnapshotIgnored(session: Option<PlaySession>, info: NowPlayingInfo, filter: Config.AppFilteringConfig,
                                threshold: Config.U8, cleaner: TextCleaner, now: nat)
    requires info.title.None? || info.artist.None? || ShouldScrobbleApp(info.bundleId, filter) == Ignore
    ensures Step(session, Some(info), filter, threshold, cleaner, now) == (session, NoEvents)
  {
  }

  /** An application to ask about: only `unknown_app` is set, to its (non-empty) bundle id. */
  lemma PromptOnlyAsks(session: Option<PlaySession>, info: NowPlayingInfo, filter: Config.AppFilteringConfig,
                       threshold: Config.U8, cleaner: TextCleaner, now: nat)
    requires info.isPlaying == Some(true) && info.title.Some? && info.artist.Some?
    requires ShouldScrobbleApp(info.bundleId, filter) == PromptUser
    ensures info.bundleId.Some? && info.bundleId.value != ""
    ensures Step(session, Some(info), filter, threshold, cleaner, now)
         == (session, MediaEvents(None, None, Some(info.bundleId.value)))
  {
  }

  /** A playing, allowed track with no session, a different track or a new update stamp starts a new
      session at `now`: not scrobbled, "now playing" marked sent, and a "now playing" event. */
  lemma NewTrackStartsSession(session: Option<PlaySession>, info: NowPlayingInfo, filter: Config.AppFilteringConfig,
                              threshold: Config.U8, cleaner: TextCleaner, now: nat, track: Track)
    requires info.isPlaying == Some(true) && TrackOf(cleaner, info) == Some(track)
    requires ShouldScrobbleApp(info.bundleId, filter) == Allow
    requires session.None? || session.value.track != track || session.value.infoUpdateTime != info.infoUpdateTime
    ensures Step(session, Some(info), filter, threshold, cleaner, now).0
         == Some(PlaySession(track, info.bundleId, now, info.duration.UnwrapOr(0), false, true, info.infoUpdateTime))
    ensures Step(session, Some(info), filter, threshold, cleaner, now).1
         == MediaEvents(Some(NowPlaying(track, info.bundleId)), None, None)
  {
  }

  /** The same track with the same update stamp continues the session: track, source, start time,
      duration and stamp are kept; a scrobble is emitted exactly when the session is due, carrying the
      session's track, start and source, and then marks it scrobbled. */
  lemma SameTrackContinuesSession(session: Option<PlaySession>, info: NowPlayingInfo, filter: Config.AppFilteringConfig,
                                  threshold: Config.U8, cleaner: TextCleaner, now: nat)
    requires info.isPlaying == Some(true) && session.Some?
    requires TrackOf(cleaner, info) == Some(session.value.track)
    requires session.value.infoUpdateTime == info.infoUpdateTime
    requires ShouldScrobbleApp(info.bundleId, filter) == Allow
    ensures var r, s := Step(session, Some(info), filter, threshold, cleaner, now), session.value;
      && r.0.Some?
      && r.0.value.track == s.track && r.0.value.bundleId == s.bundleId && r.0.value.startedAt == s.startedAt
      && r.0.value.duration == s.duration && r.0.value.infoUpdateTime == s.infoUpdateTime
      && (r.1.scrobble.Some? <==> s.ShouldScrobble(threshold, now))
      && (r.1.scrobble.Some? ==> r.1.scrobble.value == ScrobbleEvent(s.track, s.startedAt, s.bundleId))
      && (r.0.value.scrobbled <==> s.scrobbled || r.1.scrobble.Some?)
      && (r.1.nowPlaying.Some? ==> !s.nowPlayingSent && r.1.nowPlaying.value == NowPlaying(s.track, s.bundleId))
      && r.1.unknownApp.None?
  {
  }

  /** No poll emits both a "now playing" and a scrobble; a prompt comes alone and keeps the session. */
  lemma EventsExclusive(session: Option<PlaySession>, mediaInfo: Option<NowPlayingInfo>, filter: Config.AppFilteringConfig,
                        threshold: Config.U8, cleaner: TextCleaner, now: nat)
    ensures var r := Step(session, mediaInfo, filter, threshold, cleaner, now);
      && !(r.1.nowPlaying.Some? && r.1.scrobble.Some?)
      && (r.1.unknownApp.Some? ==> r.1.nowPlaying.None? && r.1.scrobble.None? && r.0 == session)
  {
  }

  /** Every poll keeps sessions consistent: once sent, "now playing" stays sent, and the session's
      duration stays the track's. */
  lemma StepKeepsConsistent(session: Option<PlaySession>, mediaInfo: Option<NowPlayingInfo>, filter: Config.AppFilteringConfig,
                            threshold: Config.U8, cleaner: TextCleaner, now: nat)
    requires Consistent(session)
    ensures Consistent(Step(session, mediaInfo, filter, threshold, cleaner, now).0)
  {
  }

  /** From a consistent state, "now playing" is emitted exactly when a new session starts:
      the branch of `poll` that sends it for a continuing session is never taken. */
  lemma NowPlayingOnlyForNewSessions(session: Option<PlaySession>, mediaInfo: Option<NowPlayingInfo>,
                                     filter: Config.AppFilteringConfig, threshold: Config.U8, cleaner: TextCleaner, now: nat)
    requires Consistent(session)
    ensures Step(session, mediaInfo, filter, threshold, cleaner, now).1.nowPlaying.Some? <==>
      && mediaInfo.Some? && mediaInfo.value.isPlaying == Some(true)
      && TrackOf(cleaner, mediaInfo.value).Some?
      && ShouldScrobbleApp(mediaInfo.value.bundleId, filter) == Allow
      && IsNewTrack(session, TrackOf(cleaner, mediaInfo.value).value, mediaInfo.value.infoUpdateTime)
  {
  }

  /** From a consistent state, a track shorter than 30 seconds, or of unknown length, is never scrobbled. */
  lemma ShortTracksNeverScrobbled(session: Option<PlaySession>, info: NowPlayingInfo, filter: Config.AppFilteringConfig,
                                  threshold: Config.U8, cleaner: TextCleaner, now: nat)
    requires Consistent(session)
    requires info.duration.None? || info.duration.value < MinTrackDuration
    ensures Step(session, Some(info), filter, threshold, cleaner, now).1.scrobble.None?
  {
    var track := TrackOf(cleaner, info);
    if track.Some? && session.Some? && session.value.track == track.value {
      assert session.value.duration < MinTrackDuration;
    }
  }

  // ---------------------------------------------------------------------------
  // Sequences of polls

  /** One poll: what the player reported and when. */
  datatype Tick = Tick(mediaInfo: Option<NowPlayingInfo>, now: nat)

  /** Successive polls from a starting session: the final session and the events of each poll. */
  function Run(session: Option<PlaySession>, ticks: seq<Tick>, filter: Config.AppFilteringConfig,
               threshold: Config.U8, cleaner: TextCleaner): (r: (Option<PlaySession>, seq<MediaEvents>))
    ensures |r.1| == |ticks|
    decreases |ticks|
  {
    if |ticks| == 0 then (session, [])
    else
      var first := Step(session, ticks[0].mediaInfo, filter, threshold, cleaner, ticks[0].now);
      var rest := Run(first.0, ticks[1..], filter, threshold, cleaner);
      (rest.0, [first.1] + rest.1)
  }

  /** The session already scrobbled the track this snapshot reports. */
  ghost predicate Spent(session: Option<PlaySession>, mediaInfo: Option<NowPlayingInfo>, cleaner: TextCleaner) {
    && session.Some? && session.value.scrobbled
    && mediaInfo.Some? && mediaInfo.value.infoUpdateTime == session.value.infoUpdateTime
    && TrackOf(cleaner, mediaInfo.value) == Some(session.value.track)
  }

  /** Polls that scrobble leave the session spent for the same snapshot; a spent session emits no
      scrobble and stays spent. */
  lemma ScrobbleSpends(session: Option<PlaySession>, mediaInfo: Option<NowPlayingInfo>, filter: Config.AppFilteringConfig,
                       threshold: Config.U8, cleaner: TextCleaner, now: nat)
    ensures var r := Step(session, mediaInfo, filter, threshold, cleaner, now);
      r.1.scrobble.Some? ==> Spent(r.0, mediaInfo, cleaner)
    ensures var r := Step(session, mediaInfo, filter, threshold, cleaner, now);
      Spent(session, mediaInfo, cleaner) ==> r.1.scrobble.None? && Spent(r.0, mediaInfo, cleaner)
  {
  }

  lemma {:induction false} SpentStaysQuiet(session: Option<PlaySession>, mediaInfo: Option<NowPlayingInfo>, ticks: seq<Tick>,
                                           filter: Config.AppFilteringConfig, threshold: Config.U8, cleaner: TextCleaner)
    requires Spent(session, mediaInfo, cleaner)
    requires forall k :: 0 <= k < |ticks| ==> ticks[k].mediaInfo == mediaInfo
    ensures forall k :: 0 <= k < |ticks| ==> Run(session, ticks, filter, threshold, cleaner).1[k].scrobble.None?
    decreases |ticks|
  {
    if |ticks| > 0 {
      ScrobbleSpends(session, mediaInfo, filter, threshold, cleaner, ticks[0].now);
      var first := Step(session, mediaInfo, filter, threshold, cleaner, ticks[0].now);
      var tail := ticks[1..];
      assert forall k :: 0 <= k < |tail| ==> tail[k] == ticks[k + 1];
      SpentStaysQuiet(first.0, mediaInfo, tail, filter, threshold, cleaner);
      var events := Run(session, ticks, filter, threshold, cleaner).1;
      assert events == [first.1] + Run(first.0, tail, filter, threshold, cleaner).1;
    }
  }

  /** At most one of the events is a scrobble. */
  predicate AtMostOneScrobbleIn(events: seq<MediaEvents>) {
    forall i, j :: 0 <= i < |events| && 0 <= j < |events| && events[i].scrobble.Some? && events[j].scrobble.Some? ==> i == j
  }

  lemma AtMostOneScrobbleCons(e: MediaEvents, rest: seq<MediaEvents>)
    requires AtMostOneScrobbleIn(rest)
    requires e.scrobble.Some? ==> forall k :: 0 <= k < |rest| ==> rest[k].scrobble.None?
    ensures AtMostOneScrobbleIn([e] + rest)
  {
    var events := [e] + rest;
    forall i, j | 0 <= i < |events| && 0 <= j < |events| && events[i].scrobble.Some? && events[j].scrobble.Some?
      ensures i == j
    {
      if i > 0 { assert events[i] == rest[i - 1]; }
      if j > 0 { assert events[j] == rest[j - 1]; }
    }
  }

  /** However often the same snapshot is polled, and at whatever times, at most one scrobble is emitted. */
  lemma {:induction false} AtMostOneScrobble(session: Option<PlaySession>, mediaInfo: Option<NowPlayingInfo>, ticks: seq<Tick>,
                                             filter: Config.AppFilteringConfig, threshold: Config.U8, cleaner: TextCleaner)
    requires forall k :: 0 <= k < |ticks| ==> ticks[k].mediaInfo == mediaInfo
    ensures AtMostOneScrobbleIn(Run(session, ticks, filter, threshold, cleaner).1)
    decreases |ticks|
  {
    if |ticks| > 0 {
      var first := Step(session, mediaInfo, filter, threshold, cleaner, ticks[0].now);
      var tail := ticks[1..];
      assert forall k :: 0 <= k < |tail| ==> tail[k] == ticks[k + 1];
      AtMostOneScrobble(first.0, mediaInfo, tail, filter, threshold, cleaner);
      if first.1.scrobble.Some? {
        ScrobbleSpends(session, mediaInfo, filter, threshold, cleaner, ticks[0].now);
        SpentStaysQuiet(first.0, mediaInfo, tail, filter, threshold, cleaner);
      }
      AtMostOneScrobbleCons(first.1, Run(first.0, tail, filter, threshold, cleaner).1);
    }
  }

  /** No session, or one that has already been scrobbled: nothing is left to scrobble. */
  predicate Quiet(session: Option<PlaySession>) {
    session.None? || session.value.scrobbled
  }

  /** A scrobbling poll leaves the session quiet; from a quiet session a poll emits no scrobble, and
      either announces a track (a new session, or "now playing" still unsent) or stays quiet. */
  lemma QuietStep(session: Option<PlaySession>, mediaInfo: Option<NowPlayingInfo>, filter: Config.AppFilteringConfig,
                  threshold: Config.U8, cleaner: TextCleaner, now: nat)
    ensures var r := Step(session, mediaInfo, filter, threshold, cleaner, now);
      r.1.scrobble.Some? ==> Quiet(r.0)
    ensures var r := Step(session, mediaInfo, filter, threshold, cleaner, now);
      Quiet(session) ==> r.1.scrobble.None? && (r.1.nowPlaying.Some? || Quiet(r.0))
  {
  }

  /** Every scrobble comes after some announcing poll. */
  predicate AnnouncedBeforeScrobbles(events: seq<MediaEvents>) {
    forall j :: 0 <= j < |events| && events[j].scrobble.Some? ==> exists k :: 0 <= k < j && events[k].nowPlaying.Some?
  }

  /** Between any two scrobbles there is an announcing poll. */
  predicate ScrobblesSeparatedIn(events: seq<MediaEvents>) {
    forall i, j :: 0 <= i < j < |events| && events[i].scrobble.Some? && events[j].scrobble.Some? ==>
      exists k :: i < k < j && events[k].nowPlaying.Some?
  }

  lemma AnnouncedCons(e: MediaEvents, rest: seq<MediaEvents>)
    requires e.scrobble.None? && (e.nowPlaying.Some? || AnnouncedBeforeScrobbles(rest))
    ensures AnnouncedBeforeScrobbles([e] + rest)
  {
    var events := [e] + rest;
    forall j | 0 <= j < |events| && events[j].scrobble.Some?
      ensures exists k :: 0 <= k < j && events[k].nowPlaying.Some?
    {
      AnnouncedBefore(e, rest, j);
    }
  }

  lemma AnnouncedBefore(e: MediaEvents, rest: seq<MediaEvents>, j: nat)
    requires e.scrobble.None? && (e.nowPlaying.Some? || AnnouncedBeforeScrobbles(rest))
    requires j < |[e] + rest| && ([e] + rest)[j].scrobble.Some?
    ensures exists k :: 0 <= k < j && ([e] + rest)[k].nowPlaying.Some?
  {
    var events := [e] + rest;
    assert j > 0 && events[j] == rest[j - 1];
    if e.nowPlaying.Some? {
      assert events[0].nowPlaying.Some?;
    } else {
      assert rest[j - 1].scrobble.Some?;
      var k :| 0 <= k < j - 1 && rest[k].nowPlaying.Some?;
      assert events[k + 1] == rest[k];
    }
  }

  lemma SeparatedCons(e: MediaEvents, rest: seq<MediaEvents>)
    requires ScrobblesSeparatedIn(rest)
    requires e.scrobble.Some? ==> AnnouncedBeforeScrobbles(rest)
    ensures ScrobblesSeparatedIn([e] + rest)
  {
    var events := [e] + rest;
    forall i, j | 0 <= i < j < |events| && events[i].scrobble.Some? && events[j].scrobble.Some?
      ensures exists k :: i < k < j && events[k].nowPlaying.Some?
    {
      SeparatedBetween(e, rest, i, j);
    }
  }

  lemma SeparatedBetween(e: MediaEvents, rest: seq<MediaEvents>, i: nat, j: nat)
    requires ScrobblesSeparatedIn(rest)
    requires e.scrobble.Some? ==> AnnouncedBeforeScrobbles(rest)
    requires i < j < |[e] + rest| && ([e] + rest)[i].scrobble.Some? && ([e] + rest)[j].scrobble.Some?
    ensures exists k :: i < k < j && ([e] + rest)[k].nowPlaying.Some?
  {
    var events := [e] + rest;
    assert events[j] == rest[j - 1];
    assert rest[j - 1].scrobble.Some?;
    if i == 0 {
      var k :| 0 <= k < j - 1 && rest[k].nowPlaying.Some?;
      assert events[k + 1] == rest[k];
    } else {
      assert events[i] == rest[i - 1];
      assert rest[i - 1].scrobble.Some?;
      var k :| i - 1 < k < j - 1 && rest[k].nowPlaying.Some?;
      assert events[k + 1] == rest[k];
    }
  }

  /** From a quiet session, every scrobble of a run comes after some announcing poll. */
  lemma {:induction false} QuietUntilAnnounced(session: Option<PlaySession>, ticks: seq<Tick>,
                                               filter: Config.AppFilteringConfig, threshold: Config.U8, cleaner: TextCleaner)
    requires Quiet(session)
    ensures AnnouncedBeforeScrobbles(Run(session, ticks, filter, threshold, cleaner).1)
    decreases |ticks|
  {
    if |ticks| > 0 {
      var first := Step(session, ticks[0].mediaInfo, filter, threshold, cleaner, ticks[0].now);
      QuietStep(session, ticks[0].mediaInfo, filter, threshold, cleaner, ticks[0].now);
      var rest := Run(first.0, ticks[1..], filter, threshold, cleaner).1;
      if first.1.nowPlaying.None? {
        QuietUntilAnnounced(first.0, ticks[1..], filter, threshold, cleaner);
      }
      AnnouncedCons(first.1, rest);
    }
  }

  /** Over any run, with any snapshots at any times, two scrobbles always have an announcing poll
      strictly between them; from a consistent state that poll starts a new session
      (`NowPlayingOnlyForNewSessions`). */
  lemma {:induction false} ScrobblesSeparated(session: Option<PlaySession>, ticks: seq<Tick>,
                                              filter: Config.AppFilteringConfig, threshold: Config.U8, cleaner: TextCleaner)
    ensures ScrobblesSeparatedIn(Run(session, ticks, filter, threshold, cleaner).1)
    decreases |ticks|
  {
    if |ticks| > 0 {
      var first := Step(session, ticks[0].mediaInfo, filter, threshold, cleaner, ticks[0].now);
      QuietStep(session, ticks[0].mediaInfo, filter, threshold, cleaner, ticks[0].now);
      var rest := Run(first.0, ticks[1..], filter, threshold, cleaner).1;
      ScrobblesSeparated(first.0, ticks[1..], filter, threshold, cleaner);
      if first.1.scrobble.Some? {
        QuietUntilAnnounced(first.0, ticks[1..], filter, threshold, cleaner);
      }
      SeparatedCons(first.1, rest);
    }
  }

  /** Pausing and then resuming the same track with an unchanged update stamp continues the session
      from its original start time, so the paused time counts as played. A changed stamp starts a
      new session instead (`PauseThenRestampRestarts`). */
  lemma PauseThenResume(session: Option<PlaySession>, paused: NowPlayingInfo, playing: NowPlayingInfo,
                        filter: Config.AppFilteringConfig, threshold: Config.U8, cleaner: TextCleaner, t1: nat, t2: nat)
    requires session.Some? && paused.isPlaying != Some(true) && playing.isPlaying == Some(true)
    requires TrackOf(cleaner, playing) == Some(session.value.track)
    requires session.value.infoUpdateTime == playing.infoUpdateTime
    requires ShouldScrobbleApp(playing.bundleId, filter) == Allow
    ensures var r := Run(session, [Tick(Some(paused), t1), Tick(Some(playing), t2)], filter, threshold, cleaner);
      && r.1[0] == NoEvents
      && r.0.Some? && r.0.value.startedAt == session.value.startedAt && r.0.value.track == session.value.track
      && (r.1[1].scrobble.Some? <==> session.value.ShouldScrobble(threshold, t2))
  {
    var ticks := [Tick(Some(paused), t1), Tick(Some(playing), t2)];
    PausedKeepsSession(session, paused, filter, threshold, cleaner, t1);
    SameTrackContinuesSession(session, playing, filter, threshold, cleaner, t2);
    var after := Step(session, Some(playing), filter, threshold, cleaner, t2);
    var last := [Tick(Some(playing), t2)];
    assert last[1..] == [];
    assert last[0].mediaInfo == Some(playing) && last[0].now == t2;
    assert Run(after.0, last[1..], filter, threshold, cleaner) == (after.0, []);
    var one := Run(session, last, filter, threshold, cleaner);
    assert one.0 == after.0 && one.1 == [after.1] + [];
    assert [after.1] + [] == [after.1];
    assert ticks[1..] == last;
    var two := Run(session, ticks, filter, threshold, cleaner);
    assert two.0 == one.0 && two.1 == [NoEvents] + one.1;
  }

  /** Pausing and then resuming the same track with a changed update stamp starts a new session at
      the resume time: the time played before the pause no longer counts, and "now playing" is sent again. */
  lemma PauseThenRestampRestarts(session: Option<PlaySession>, paused: NowPlayingInfo, playing: NowPlayingInfo,
                                 filter: Config.AppFilteringConfig, threshold: Config.U8, cleaner: TextCleaner, t1: nat, t2: nat)
    requires session.Some? && paused.isPlaying != Some(true) && playing.isPlaying == Some(true)
    requires TrackOf(cleaner, playing) == Some(session.value.track)
    requires session.value.infoUpdateTime != playing.infoUpdateTime
    requires ShouldScrobbleApp(playing.bundleId, filter) == Allow
    ensures var r := Run(session, [Tick(Some(paused), t1), Tick(Some(playing), t2)], filter, threshold, cleaner);
      && r.1[0] == NoEvents
      && r.0.Some? && r.0.value.startedAt == t2 && r.0.value.track == session.value.track && !r.0.value.scrobbled
      && r.1[1] == MediaEvents(Some(NowPlaying(session.value.track, playing.bundleId)), None, None)
  {
    var ticks := [Tick(Some(paused), t1), Tick(Some(playing), t2)];
    PausedKeepsSession(session, paused, filter, threshold, cleaner, t1);
    NewTrackStartsSession(session, playing, filter, threshold, cleaner, t2, session.value.track);
    var after := Step(session, Some(playing), filter, threshold, cleaner, t2);
    var last := [Tick(Some(playing), t2)];
    assert last[1..] == [];
    assert last[0].mediaInfo == Some(playing) && last[0].now == t2;
    assert Run(after.0, last[1..], filter, threshold, cleaner) == (after.0, []);
    var one := Run(session, last, filter, threshold, cleaner);
    assert one.0 == after.0 && one.1 == [after.1] + [];
    assert [after.1] + [] == [after.1];
    assert ticks[1..] == last;
    var two := Run(session, ticks, filter, threshold, cleaner);
    assert two.0 == one.0 && two.1 == [NoEvents] + one.1;
  }
}
