# osx-scrobbler core, modelled in Dafny

osx-scrobbler is a macOS menu-bar application. It polls the system's "now playing"
information and reports what is playing to Last.fm and ListenBrainz. This project models
the core that decides what gets reported:

- **MediaMonitor.dfy**: the play-session state machine of `src/media_monitor.rs`.
  - `PlaySession` holds the track, its source application, the start time and the duration, and records whether it has been scrobbled or announced.
  - The scrobble threshold rule: at least 30 seconds long, and played for `threshold`% of the track or four minutes, whichever comes first.
  - The per-application filter.
  - The conversion from a now-playing snapshot to a cleaned `Track`.
  - The `MediaMonitor` class, whose `Poll` method updates the current session in place and returns the `MediaEvents` of one poll.
  - `Poll` is proved equal to the pure transition function `Step`. The per-poll and multi-poll properties are proved about `Step` and `Run`. Example: polling the same snapshot any number of times scrobbles it at most once.
- **Config.dfy**: the configuration records, their defaults and `Config::validate` of `src/config.rs`.
  - Each `bail!` becomes a `ConfigError` case.
  - `Validate` passes exactly on the well-formed configurations.
  - The order of the checks is proved.
- **TextCleanup.dfy**: `TextCleaner` of `src/text_cleanup.rs`.
  - Patterns that fail to compile are dropped.
  - The remaining patterns are applied in configured order, and the result is trimmed with Rust's `char::is_whitespace`.
  - `Clean` is the loop over the patterns, proved against the function `Cleaned`.
- **LastFmAuth.dfy**: the Last.fm request signature of `src/scrobbler/lastfm_auth.rs`.
  - The `BTreeMap<String, String>` of parameters is a key-sorted list of entries. Its insert is proved to be a map update, and sorted lists are unique per map.
  - `GenerateSignature` concatenates key and value of each parameter in key order, then appends the secret. It returns the lower-case hex digest of the UTF-8 bytes.
  - The exact parameter lists and signatures of `get_token` and `get_session` are derived.
  - The inline signature of `src/scrobbler.rs` is shown to be the same scheme.
- **Scrobbler.dfy**: the `Track` record of `src/scrobbler.rs`.
- **Wrappers.dfy**: `Option` and a pass/fail `Outcome`.

Notes on the code as modelled:

- **Track equality.** `Track` equality compares all four fields, duration included, as the derived `PartialEq` at src/scrobbler.rs:84-90 does. A track whose reported duration changes therefore starts a new session.
- **No dispatcher.** `poll` only returns events; no code in the repository sends them to a service or retries.
- **Unreachable branch.** "Now playing" for a continuing session is never sent. Every session `poll` creates is already marked as sent, so the `should_send_now_playing` branch of `poll` is never taken from a reachable state (`NowPlayingOnlyForNewSessions`). It is modelled as written.

## Model

| member | source | states |
|---|---|---|
| MediaMonitor.PlaySession.ElapsedSeconds | src/media_monitor.rs:57-60 | seconds since the session started; 0 when the clock is before the start |
| MediaMonitor.NewSession | src/media_monitor.rs:39-54 | a new session carries the given track, source, duration and update stamp, starts at `now` (elapsed 0), is not scrobbled and has "now playing" still unsent |
| MediaMonitor.PlaySession.ScrobbleAt | src/media_monitor.rs:73-79 | the play time needed is the largest whole number of seconds that is at most 240 and at most `threshold`% of the duration |
| MediaMonitor.PlaySession.ShouldScrobble | src/media_monitor.rs:63-80 | `should_scrobble`; its meaning is stated by `ScrobbleRule`, `ScrobbleStaysDue`, `FourMinutesSuffice` and `NeverDue` |
| MediaMonitor.PlaySession.ShouldSendNowPlaying | src/media_monitor.rs:82-84 | `should_send_now_playing`; `NewSession` states a new session is due for it, and `NowPlayingOnlyForNewSessions` that `poll` never acts on it for a continuing session |
| MediaMonitor.ScrobbleRule | src/media_monitor.rs:63-80 | a session is due iff it is not scrobbled, the track is at least 30 s long, and it has played 240 s or `100*(elapsed+1) > duration*threshold` (the integer-division rule without division) |
| MediaMonitor.ScrobbleStaysDue | src/media_monitor.rs:73-79 | once a session is due, it stays due at every later time |
| MediaMonitor.FourMinutesSuffice | src/media_monitor.rs:74-77 | four minutes of play make any unscrobbled track of at least 30 s due, whatever the percentage |
| MediaMonitor.NeverDue | src/media_monitor.rs:64-71 | a track under 30 s, or an already scrobbled session, is never due |
| MediaMonitor.ThresholdExamples | src/media_monitor.rs:73-79 | a 200 s track at 50% is due after 100 s and not after 99 s; a 600 s track at 80% is capped at 240 s |
| MediaMonitor.ShouldScrobbleApp | src/media_monitor.rs:107-147 | prompts iff the id is known, prompting is on and the id is on neither list; ignores iff an unknown id meets `scrobble_unknown == false`, or a known id is ignored and not allowed |
| MediaMonitor.FilterPrecedence | src/media_monitor.rs:111-146 | an id on the allowed list is allowed even if also ignored; an id on neither list is prompted for only when prompting is on; a missing id and an empty id are treated alike |
| MediaMonitor.ListOrderImmaterialWhenValid | src/media_monitor.rs:130-137 | for a configuration that validates, checking the ignored list first gives the same decision |
| MediaMonitor.TrackOf | src/media_monitor.rs:150-166 | a track exists iff title and artist are reported; it keeps the reported duration, and has an album iff one is reported |
| MediaMonitor.RawTrackWhenCleanupDisabled | src/media_monitor.rs:150-166 | with cleanup disabled the track carries the reported strings unchanged |
| MediaMonitor.MediaMonitor.constructor | src/media_monitor.rs:97-104 | a new monitor keeps the threshold and cleaner and has no session |
| MediaMonitor.MediaMonitor.MediaInfoToTrack | src/media_monitor.rs:150-166 | the method that runs the cleaner computes `TrackOf` |
| MediaMonitor.IsNewTrack | src/media_monitor.rs:212-218 | the new-track test; `NewTrackStartsSession` and `SameTrackContinuesSession` state what `poll` does on each side of it |
| MediaMonitor.Step | src/media_monitor.rs:169-275 | the transition one poll performs; `Poll` is proved to compute it, and the per-poll lemmas below state its behaviour branch by branch |
| MediaMonitor.MediaMonitor.Poll | src/media_monitor.rs:169-275 | the new session and the events are those of `Step` on the old session; the consistency invariant is preserved |
| MediaMonitor.PausedKeepsSession | src/media_monitor.rs:180-186 | a snapshot that is not playing (or of unknown state) leaves the session, start time included, unchanged and emits nothing |
| MediaMonitor.NoMediaClearsSession | src/media_monitor.rs:266-271 | no snapshot at all clears the session and emits nothing |
| MediaMonitor.UnusableSnapshotIgnored | src/media_monitor.rs:189-198 | a snapshot without title or artist, or from an ignored application, changes nothing and emits nothing |
| MediaMonitor.PromptOnlyAsks | src/media_monitor.rs:199-205 | for an application to ask about, only `unknown_app` is set, to its non-empty bundle id, and the session is unchanged |
| MediaMonitor.NewTrackStartsSession | src/media_monitor.rs:212-240 | a new track or update stamp starts an unscrobbled session at `now` with the track's duration and emits exactly a "now playing" |
| MediaMonitor.SameTrackContinuesSession | src/media_monitor.rs:241-263 | the same track keeps track, source, start, duration and stamp; a scrobble is emitted iff the session is due, carries the session's track, start and source, and marks it scrobbled |
| MediaMonitor.EventsExclusive | src/media_monitor.rs:176-275 | no poll emits both a "now playing" and a scrobble; a prompt comes alone and keeps the session |
| MediaMonitor.StepKeepsConsistent | src/media_monitor.rs:220-263 | every poll keeps "now playing" marked sent and the session's duration equal to the track's |
| MediaMonitor.NowPlayingOnlyForNewSessions | src/media_monitor.rs:258-263 | from a consistent state "now playing" is emitted iff a new session starts, so the continuing-session branch is never taken |
| MediaMonitor.ShortTracksNeverScrobbled | src/media_monitor.rs:69-71 | from a consistent state a track under 30 s, or of unknown length, is never scrobbled |
| MediaMonitor.ScrobbleSpends | src/media_monitor.rs:241-257 | a poll that scrobbles leaves the session spent for that snapshot; a spent session emits no scrobble and stays spent |
| MediaMonitor.SpentStaysQuiet | src/media_monitor.rs:64-66 | polling a spent session's snapshot again, at any times, never scrobbles |
| MediaMonitor.AtMostOneScrobble | src/media_monitor.rs:241-257 | polling the same snapshot any number of times, at any times, emits at most one scrobble |
| MediaMonitor.QuietStep | src/media_monitor.rs:241-263 | a scrobbling poll leaves no session or a scrobbled one; from such a state a poll either announces a track or emits no scrobble and stays so |
| MediaMonitor.QuietUntilAnnounced | src/media_monitor.rs:220-263 | from no session or a scrobbled one, every scrobble of any run comes after an announcing poll |
| MediaMonitor.ScrobblesSeparated | src/media_monitor.rs:220-263 | over any run, with any snapshots at any times, two scrobbles always have a "now playing" poll strictly between them, which from a consistent state is a new session |
| MediaMonitor.PauseThenResume | src/media_monitor.rs:180-186 | pausing and then resuming the same track with an unchanged update stamp keeps the original start time, so the paused time counts as played |
| MediaMonitor.PauseThenRestampRestarts | src/media_monitor.rs:212-240 | pausing and then resuming the same track with a changed update stamp starts a new, unscrobbled session at the resume time and sends "now playing" again |
| Config.ListenBrainzError | src/config.rs:209-218 | no error iff no instance is misconfigured; otherwise the error is that of the first misconfigured instance, the token checked before the URL |
| Config.FirstConflict | src/config.rs:221-228 | no conflict iff no allowed id is ignored; otherwise the first allowed id that is also ignored |
| Config.DefaultConfig | src/config.rs:101-122 | the default configuration; `DefaultConfigIsValid` states that it validates and that no service is enabled in it |
| Config.DefaultCleanupConfig | src/config.rs:43-57 | cleanup on, with the six "Explicit"/"Clean" patterns; stated by `DefaultConfigIsValid` |
| Config.DefaultAppFilteringConfig | src/config.rs:90-99 | prompt for new apps, scrobble unknown ones, both lists empty; stated by `DefaultConfigIsValid` |
| Config.Validate | src/config.rs:177-231 | passes exactly on well-formed configurations: positive refresh interval, threshold 1..100, Last.fm credentials when enabled, token and URL for enabled ListenBrainz instances, no id on both app lists |
| Config.DisabledInstancesNotChecked | src/config.rs:209-218 | dropping the disabled ListenBrainz instances does not change the error found |
| Config.DisabledListenBrainzNotChecked | src/config.rs:209-218 | dropping the disabled ListenBrainz instances does not change the verdict of validation |
| Config.SameErrorsSameVerdict | src/config.rs:177-231 | validation sees the ListenBrainz instances only through the first error among them |
| Config.LastFmCredentialsChecked | src/config.rs:196-206 | a disabled Last.fm section counts as absent, and the session key is never checked |
| Config.ValidationOrder | src/config.rs:179-206 | each of the first four errors is reported exactly when its check fails and all earlier ones pass |
| Config.OverlapRejected | src/config.rs:220-228 | once the service checks pass, validation fails iff some id is on both app lists, and the error names such an id |
| Config.DefaultConfigIsValid | src/config.rs:101-122 | the default configuration validates although no service is enabled (the warning case); its filter and six cleanup patterns are the defaults |
| TextCleanup.Trim | src/text_cleanup.rs:51 | the result is a slice of the input, everything cut off is whitespace, and the result neither starts nor ends with whitespace |
| TextCleanup.ApplyAll | src/text_cleanup.rs:45-48 | the removal of every pattern's matches in turn; its order is stated by `ApplyAllInOrder` and `FirstPatternFirst` |
| TextCleanup.TextCleaner.Cleaned | src/text_cleanup.rs:40-52 | what `clean` returns; stated by `DisabledIsIdentity`, `EnabledResultIsTrimmed` and `CleanerFollowsConfig`, and computed by `Clean` |
| TextCleanup.ApplyAllInOrder | src/text_cleanup.rs:45-48 | patterns apply strictly in list order: a split list is its first half, then its second |
| TextCleanup.FirstPatternFirst | src/text_cleanup.rs:45-48 | the first pattern works on the raw text, the rest on what is left |
| TextCleanup.CompileAll | src/text_cleanup.rs:15-31 | at most as many compiled patterns as configured |
| TextCleanup.CompileAllSurvivors | src/text_cleanup.rs:19-27 | every compiled pattern is the compilation of a configured one |
| TextCleanup.CompileAllKeepsOrder | src/text_cleanup.rs:16-28 | compiling a concatenation concatenates the results, so survivors keep their order |
| TextCleanup.CompileOne | src/text_cleanup.rs:19-27 | a pattern that fails to compile is skipped; one that compiles is kept |
| TextCleanup.CompileAllValid | src/text_cleanup.rs:16-28 | when every pattern compiles, none is dropped and each keeps its position |
| TextCleanup.TextCleaner.Clean | src/text_cleanup.rs:40-52 | the loop computes `Cleaned`: the input when disabled, otherwise all patterns in order, then trimmed |
| TextCleanup.TextCleaner.CleanOption | src/text_cleanup.rs:55-57 | `none` stays `none`; a present string is cleaned |
| TextCleanup.NewCleaner | src/text_cleanup.rs:14-37 | the cleaner is enabled as configured, compiles no pattern when disabled, and keeps at most the configured ones |
| TextCleanup.DisabledIsIdentity | src/text_cleanup.rs:41-43 | a disabled cleaner returns its input unchanged, untrimmed |
| TextCleanup.EnabledResultIsTrimmed | src/text_cleanup.rs:45-51 | an enabled cleaner returns trimmed text; with no patterns it is exactly `trim` |
| TextCleanup.CleanerFollowsConfig | src/text_cleanup.rs:14-52 | the cleaner built from a configuration applies the compiling patterns in configured order, then trims |
| LastFmAuth.Insert | src/scrobbler/lastfm_auth.rs:39-45 | `BTreeMap::insert`: the result is the map updated at the key, still sorted |
| LastFmAuth.SortedUnique | src/scrobbler/lastfm_auth.rs:26 | two sorted parameter lists with the same contents are equal, so iteration order depends only on the contents |
| LastFmAuth.InsertCommutes | src/scrobbler/lastfm_auth.rs:39-45 | inserting two distinct keys in either order gives the same map |
| LastFmAuth.PairStringConcat | src/scrobbler/lastfm_auth.rs:26-29 | the key-value concatenation of two lists is the concatenation of theirs |
| LastFmAuth.PairString | src/scrobbler/lastfm_auth.rs:26-29 | each entry's key then value, in list order; stated by `PairStringConcat`, `PairStringOfTwo` and `PairStringOfThree` |
| LastFmAuth.PairStringOfTwo | src/scrobbler/lastfm_auth.rs:26-29 | the pair string of one entry and of two entries: each key then its value, in order |
| LastFmAuth.PairStringOfThree | src/scrobbler/lastfm_auth.rs:26-29 | the pair string of three entries: each key then its value, in order |
| LastFmAuth.SignedString | src/scrobbler/lastfm_auth.rs:25-30 | the pairs in key order with the secret appended once; the hashed input of `GenerateSignature` |
| LastFmAuth.Utf8 | src/scrobbler/lastfm_auth.rs:32 | `as_bytes`: at least one byte per character, and an ASCII string encodes to its own character codes |
| LastFmAuth.LowerHex | src/scrobbler/lastfm_auth.rs:32 | `{:x}` of a digest has two characters per byte |
| LastFmAuth.LowerHexDigits | src/scrobbler/lastfm_auth.rs:32 | every character of the hex form is one of `0-9a-f` |
| LastFmAuth.LowerHexRoundTrip | src/scrobbler/lastfm_auth.rs:32 | parsing the hex form gives the digest bytes back |
| LastFmAuth.GenerateSignature | src/scrobbler/lastfm_auth.rs:24-33 | the loop yields the lower-case hex of the digest of the UTF-8 bytes of all key-value pairs in key order followed by the secret |
| LastFmAuth.GetTokenParams | src/scrobbler/lastfm_auth.rs:39-45 | the request carries exactly `api_key`, `api_sig`, `format=json` and `method=auth.getToken`, in key order; `api_sig` signs the others except `format` |
| LastFmAuth.GetSessionParams | src/scrobbler/lastfm_auth.rs:68-75 | the same with `method=auth.getSession` and `token`; `api_sig` signs `api_key`, `method` and `token` |
| LastFmAuth.InlineGetTokenUsesSameScheme | src/scrobbler.rs:25-26 | the hand-written signed string of the inline `get_token` is the general scheme applied to its two parameters |

## Left out

- Querying macOS's now-playing framework (the JXA script, the autorelease pool and logging) is not modelled. The snapshot a poll sees is a parameter of `Poll`.
- The clock (`Utc::now`) is a parameter `now`, in whole seconds. All reads of the clock within one poll see the same value. A clock running backwards counts as 0 elapsed seconds, as in `elapsed_seconds`.
- The player's `SystemTime` update stamp is an opaque number, only compared for equality.
- The player reports the duration as a floating-point number of seconds. The model takes it after the cast to whole seconds.
- MediaMonitor.PlaySession.ScrobbleAt: computes `duration * threshold` with unbounded integers. The `u64` product in the source could only overflow for durations beyond 2^64/255 seconds.
- The regular-expression engine is a parameter. A compiled pattern is an opaque "remove every match" function, and compilation may fail. Idempotence of cleaning is therefore not claimed; it depends on the patterns.
- MD5 is a parameter `md5`. Only how its input is assembled, and how its output is printed, are modelled.
- The wording of the error and log messages is not modelled. Each `bail!` of `validate` is a `ConfigError` case, and the "no services enabled" warning is the predicate `NoServiceWarning`.
- Loading, saving and locating the TOML configuration file, and serde's field defaults, are not modelled.
- The HTTP exchanges of `get_token` and `get_session` are not modelled: network I/O. Nor are the interactive `authenticate` flow (stdin and the browser) or the Last.fm and ListenBrainz service clients of `src/scrobbler.rs`.
- Nothing in the code calls `poll` yet: the monitor set-up and the main event loop in src/main.rs:17-20 are still to be written. The model covers one poll (`Poll`, `Step`) and sequences of polls (`Run`).
- These are not part of the core and are not modelled: `apple-music/src/apple_music.rs`, the tray menu and the application-approval dialog, and `src/main.rs`.
