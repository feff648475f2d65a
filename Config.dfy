/** The configuration record of the scrobbler, its defaults, and `Config::validate`
    (src/config.rs). Loading and saving the TOML file are not part of this model. */
module Config {
  import opened Wrappers

  /** Rust's `u8`. */
  type U8 = n: nat | n < 256

  /** Text cleanup: whether it is on, and the regular expressions to remove, in order. */
  datatype CleanupConfig = CleanupConfig(enabled: bool, patterns: seq<string>)

  datatype LastFmConfig = LastFmConfig(enabled: bool, apiKey: string, apiSecret: string, sessionKey: string)

  datatype ListenBrainzConfig = ListenBrainzConfig(enabled: bool, name: string, token: string, apiUrl: string)

  /** Which source applications (by bundle id) may be scrobbled. */
  datatype AppFilteringConfig = AppFilteringConfig(
    promptForNewApps: bool,
    scrobbleUnknown: bool,
    allowedApps: seq<string>,
    ignoredApps: seq<string>)

  datatype Config = Config(
    refreshInterval: nat,
    scrobbleThreshold: U8,
    cleanup: CleanupConfig,
    appFiltering: AppFilteringConfig,
    lastfm: Option<LastFmConfig>,
    listenbrainz: seq<ListenBrainzConfig>)

  /** The reasons `validate` bails out with, one per `bail!` in the source. */
  datatype ConfigError =
    | RefreshIntervalZero
    | ThresholdOutOfRange
    | LastFmApiKeyMissing
    | LastFmApiSecretMissing
    | ListenBrainzTokenMissing(instance: string)
    | ListenBrainzApiUrlMissing(instance: string)
    | AppInBothLists(bundleId: string)

  // ---------------------------------------------------------------------------
  // Defaults

  function DefaultCleanupConfig(): CleanupConfig {
    CleanupConfig(true, [
      "\\s*\\[Explicit\\]",
      "\\s*\\[Clean\\]",
      "\\s*\\(Explicit\\)",
      "\\s*\\(Clean\\)",
      "\\s*- Explicit",
      "\\s*- Clean"
    ])
  }

  function DefaultAppFilteringConfig(): AppFilteringConfig {
    AppFilteringConfig(true, true, [], [])
  }

  function DefaultConfig(): Config {
    Config(
      5,
      50,
      DefaultCleanupConfig(),
      DefaultAppFilteringConfig(),
      Some(LastFmConfig(false, "", "", "")),
      [ListenBrainzConfig(false, "Primary", "", "https://api.listenbrainz.org")])
  }

  // ---------------------------------------------------------------------------
  // Validation

  /** An instance that `validate` rejects: enabled, with no token or no API URL. */
  predicate Misconfigured(lb: ListenBrainzConfig) {
    lb.enabled && (lb.token == "" || lb.apiUrl == "")
  }

  /** The error for a rejected instance; the token is checked before the URL. */
  function InstanceError(lb: ListenBrainzConfig): ConfigError
    requires Misconfigured(lb)
  {
    if lb.token == "" then ListenBrainzTokenMissing(lb.name) else ListenBrainzApiUrlMissing(lb.name)
  }

  /** The `for lb in &self.listenbrainz` loop: the error of the first misconfigured instance. */
  function ListenBrainzError(lbs: seq<ListenBrainzConfig>): (r: Option<ConfigError>)
    ensures r.None? <==> forall i :: 0 <= i < |lbs| ==> !Misconfigured(lbs[i])
    ensures r.Some? ==> exists i :: 0 <= i < |lbs| && Misconfigured(lbs[i]) && r.value == InstanceError(lbs[i])
                                    && forall j :: 0 <= j < i ==> !Misconfigured(lbs[j])
  {
    if |lbs| == 0 then None
    else if Misconfigured(lbs[0]) then Some(InstanceError(lbs[0]))
    else
      var rest := ListenBrainzError(lbs[1..]);
      assert forall i :: 1 <= i < |lbs| ==> lbs[i] == lbs[1..][i - 1];
      rest
  }

  /** The conflict loop: the first allowed bundle id that is also ignored. */
  function FirstConflict(allowed: seq<string>, ignored: seq<string>): (r: Option<string>)
    ensures r.None? <==> forall i :: 0 <= i < |allowed| ==> allowed[i] !in ignored
    ensures r.Some? ==> exists i :: 0 <= i < |allowed| && allowed[i] == r.value && r.value in ignored
                                    && forall j :: 0 <= j < i ==> allowed[j] !in ignored
  {
    if |allowed| == 0 then None
    else if allowed[0] in ignored then Some(allowed[0])
    else
      var rest := FirstConflict(allowed[1..], ignored);
      assert forall i :: 1 <= i < |allowed| ==> allowed[i] == allowed[1..][i - 1];
      rest
  }

  /** Last.fm is configured and switched on. */
  predicate LastFmEnabled(c: Config) {
    c.lastfm.Some? && c.lastfm.value.enabled
  }

  /** True when `validate` logs "No scrobbling services are enabled"; a warning, never an error. */
  predicate NoServiceWarning(c: Config) {
    !LastFmEnabled(c) && !(exists i :: 0 <= i < |c.listenbrainz| && c.listenbrainz[i].enabled)
  }

  /** Everything `validate` demands, stated without its order of checks. */
  ghost predicate WellFormed(c: Config) {
    && c.refreshInterval > 0
    && 1 <= c.scrobbleThreshold <= 100
    && (LastFmEnabled(c) ==> c.lastfm.value.apiKey != "" && c.lastfm.value.apiSecret != "")
    && (forall lb :: lb in c.listenbrainz && lb.enabled ==> lb.token != "" && lb.apiUrl != "")
    && (forall id :: id in c.appFiltering.allowedApps ==> id !in c.appFiltering.ignoredApps)
  }

  /** `Config::validate`: the checks in source order, each bailing out with its own error. */
  function Validate(c: Config): (r: Outcome<ConfigError>)
    ensures r.Pass? <==> WellFormed(c)
  {
    if c.refreshInterval == 0 then Fail(RefreshIntervalZero)
    else if c.scrobbleThreshold == 0 || c.scrobbleThreshold > 100 then Fail(ThresholdOutOfRange)
    else if LastFmEnabled(c) && c.lastfm.value.apiKey == "" then Fail(LastFmApiKeyMissing)
    else if LastFmEnabled(c) && c.lastfm.value.apiSecret == "" then Fail(LastFmApiSecretMissing)
    else match ListenBrainzError(c.listenbrainz) {
      case Some(e) => Fail(e)
      case None =>
        match FirstConflict(c.appFiltering.allowedApps, c.appFiltering.ignoredApps) {
          case Some(id) => Fail(AppInBothLists(id))
          case None => Pass
        }
    }
  }

  // ---------------------------------------------------------------------------
  // Properties of validation

  /** Only enabled ListenBrainz instances are checked: dropping the disabled ones changes nothing. */
  function EnabledOnly(lbs: seq<ListenBrainzConfig>): (r: seq<ListenBrainzConfig>)
    ensures forall lb :: lb in r <==> lb in lbs && lb.enabled
  {
    if |lbs| == 0 then []
    else (if lbs[0].enabled then [lbs[0]] else []) + EnabledOnly(lbs[1..])
  }

  lemma {:induction false} DisabledInstancesNotChecked(lbs: seq<ListenBrainzConfig>)
    ensures ListenBrainzError(EnabledOnly(lbs)) == ListenBrainzError(lbs)
  {
    if |lbs| > 0 {
      DisabledInstancesNotChecked(lbs[1..]);
      var e, rest := EnabledOnly(lbs), EnabledOnly(lbs[1..]);
      if lbs[0].enabled {
        assert e == [lbs[0]] + rest;
        assert e[0] == lbs[0] && e[1..] == rest;
      } else {
        assert e == rest;
        assert !Misconfigured(lbs[0]);
      }
    }
  }

  lemma DisabledListenBrainzNotChecked(c: Config)
    ensures Validate(c.(listenbrainz := EnabledOnly(c.listenbrainz))) == Validate(c)
  {
    DisabledInstancesNotChecked(c.listenbrainz);
    SameErrorsSameVerdict(c.(listenbrainz := EnabledOnly(c.listenbrainz)), c);
  }

  /** `validate` sees the ListenBrainz instances only through the first error among them. */
  lemma SameErrorsSameVerdict(c1: Config, c2: Config)
    requires c1.(listenbrainz := c2.listenbrainz) == c2
    requires ListenBrainzError(c1.listenbrainz) == ListenBrainzError(c2.listenbrainz)
    ensures Validate(c1) == Validate(c2)
  {
  }

  /** A disabled Last.fm section is never looked at, and `session_key` is never checked. */
  lemma LastFmCredentialsChecked(c: Config, key: string, secret: string, session: string)
    ensures Validate(c.(lastfm := Some(LastFmConfig(false, key, secret, session)))) == Validate(c.(lastfm := None))
    ensures c.lastfm.Some? ==> Validate(c.(lastfm := Some(c.lastfm.value.(sessionKey := session)))) == Validate(c)
  {
  }

  /** The order of the checks: each error is reported exactly when every earlier check passed. */
  lemma ValidationOrder(c: Config)
    ensures Validate(c) == Fail(RefreshIntervalZero) <==> c.refreshInterval == 0
    ensures Validate(c) == Fail(ThresholdOutOfRange) <==>
      c.refreshInterval > 0 && !(1 <= c.scrobbleThreshold <= 100)
    ensures Validate(c) == Fail(LastFmApiKeyMissing) <==>
      c.refreshInterval > 0 && 1 <= c.scrobbleThreshold <= 100 && LastFmEnabled(c) && c.lastfm.value.apiKey == ""
    ensures Validate(c) == Fail(LastFmApiSecretMissing) <==>
      c.refreshInterval > 0 && 1 <= c.scrobbleThreshold <= 100 && LastFmEnabled(c)
      && c.lastfm.value.apiKey != "" && c.lastfm.value.apiSecret == ""
  {
  }

  /** Once the earlier checks pass, validation fails iff some bundle id is both allowed and ignored,
      and the error names such an id. */
  lemma {:induction false} OverlapRejected(c: Config)
    requires c.refreshInterval > 0 && 1 <= c.scrobbleThreshold <= 100
    requires LastFmEnabled(c) ==> c.lastfm.value.apiKey != "" && c.lastfm.value.apiSecret != ""
    requires forall i :: 0 <= i < |c.listenbrainz| ==> !Misconfigured(c.listenbrainz[i])
    ensures Validate(c).Fail? <==>
      exists id :: id in c.appFiltering.allowedApps && id in c.appFiltering.ignoredApps
    ensures Validate(c).Fail? ==>
      Validate(c).error.AppInBothLists?
      && Validate(c).error.bundleId in c.appFiltering.allowedApps
      && Validate(c).error.bundleId in c.appFiltering.ignoredApps
  {
    var allowed, ignored := c.appFiltering.allowedApps, c.appFiltering.ignoredApps;
    var conflict := FirstConflict(allowed, ignored);
    if conflict.None? {
      forall id | id in allowed ensures id !in ignored {
        var i :| 0 <= i < |allowed| && allowed[i] == id;
      }
    }
  }

  /** The default configuration validates, although no service is enabled in it. */
  lemma DefaultConfigIsValid()
    ensures Validate(DefaultConfig()) == Pass
    ensures NoServiceWarning(DefaultConfig())
    ensures DefaultConfig().appFiltering == AppFilteringConfig(true, true, [], [])
    ensures DefaultConfig().cleanup.enabled && |DefaultConfig().cleanup.patterns| == 6
  {
    var lbs := DefaultConfig().listenbrainz;
    assert !Misconfigured(lbs[0]);
  }
}
