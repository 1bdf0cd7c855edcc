/** The editable settings, with their built-in values and the variables that override them. */
module SettingsSchema {
  import opened Decimal
  import opened Settings
  import opened Wrappers
  import Durations

  /** The value fits its type; durations are whole seconds and no variable overrides them. */
  predicate IsSound(f: Field) {
    Fits(f.kind, f.initial) && (f.kind.KDur? ==> f.env == None && f.initial.ns % Durations.SECOND == 0)
  }

  type SoundField = f: Field | IsSound(f) witness Field(KBool, VBool(false), None)

  type Schema = map<string, SoundField>

  function Bool(initial: bool, env: Option<string>): SoundField {
    Field(KBool, VBool(initial), env)
  }

  /** A string that is shown as it is. */
  function Text(initial: string, env: Option<string>): SoundField {
    Field(KStr(false), VStr(initial), env)
  }

  /** A string that is shown as null when empty. */
  function Nullable(initial: string, env: Option<string>): SoundField {
    Field(KStr(true), VStr(initial), env)
  }

  function Number(initial: int, env: Option<string>): SoundField {
    Field(KInt, VInt(initial), env)
  }

  function List(env: Option<string>): SoundField {
    Field(KList, VList([]), env)
  }

  function Interval(initial: int): SoundField
    requires 0 <= initial <= MAX_INT64 && initial % Durations.SECOND == 0
  {
    Field(KDur, VDur(initial), None)
  }

  function CoreSettings(tempDirectory: string): Schema {
    map[
      "coreReturnHttpsUrls" := Bool(false, Some("CORE_RETURN_HTTPS_URLS")),
      "coreDefaultDomain" := Nullable("", Some("CORE_DEFAULT_DOMAIN")),
      "coreTempDirectory" := Text(tempDirectory, Some("CORE_TEMP_DIRECTORY")),
      "coreTrustProxy" := Bool(false, Some("CORE_TRUST_PROXY"))
    ]
  }

  function ChunksSettings(): Schema {
    map[
      "chunksEnabled" := Bool(true, None),
      "chunksMax" := Text("95mb", None),
      "chunksSize" := Text("25mb", None)
    ]
  }

  function TasksSettings(): Schema {
    map[
      "tasksDeleteInterval" := Interval(30 * Durations.MINUTE),
      "tasksClearInvitesInterval" := Interval(30 * Durations.MINUTE),
      "tasksMaxViewsInterval" := Interval(30 * Durations.MINUTE),
      "tasksThumbnailsInterval" := Interval(30 * Durations.MINUTE),
      "tasksMetricsInterval" := Interval(30 * Durations.MINUTE),
      "tasksCleanThumbnailsInterval" := Interval(24 * Durations.HOUR)
    ]
  }

  function FilesSettings(): Schema {
    map[
      "filesRoute" := Text("/u", Some("FILES_ROUTE")),
      "filesLength" := Number(6, Some("FILES_LENGTH")),
      "filesDefaultFormat" := Text("random", Some("FILES_DEFAULT_FORMAT")),
      "filesDisabledExtensions" := List(None),
      "filesMaxFileSize" := Text("100mb", Some("FILES_MAX_FILE_SIZE")),
      "filesDefaultExpiration" := Nullable("", None),
      "filesMaxExpiration" := Nullable("", None),
      "filesAssumeMimetypes" := Bool(false, Some("FILES_ASSUME_MIMETYPES"))
    ]
  }

  function FileHandlingSettings(): Schema {
    map[
      "filesDefaultDateFormat" := Text("2006-01-02_15:04:05", None),
      "filesRemoveGpsMetadata" := Bool(false, Some("FILES_REMOVE_GPS_METADATA")),
      "filesRandomWordsNumAdjectives" := Number(2, None),
      "filesRandomWordsSeparator" := Text("-", None),
      "filesDefaultCompressionFormat" := Text("jpg", Some("FILES_DEFAULT_COMPRESSION_FORMAT")),
      "filesMaxFilesPerUpload" := Number(1000, Some("FILES_MAX_FILES_PER_UPLOAD")),
      "filesExtensionlessUrls" := Bool(false, Some("FILES_EXTENSIONLESS_URLS"))
    ]
  }

  function UrlsSettings(): Schema {
    map[
      "urlsRoute" := Text("/go", Some("URLS_ROUTE")),
      "urlsLength" := Number(6, Some("URLS_LENGTH"))
    ]
  }

  function FeaturesSettings(): Schema {
    map[
      "featuresImageCompression" := Bool(true, Some("FEATURES_IMAGE_COMPRESSION")),
      "featuresRobotsTxt" := Bool(true, None),
      "featuresHealthcheck" := Bool(true, None),
      "featuresUserRegistration" := Bool(false, Some("FEATURES_USER_REGISTRATION")),
      "featuresOauthRegistration" := Bool(false, Some("FEATURES_OAUTH_REGISTRATION")),
      "featuresDeleteOnMaxViews" := Bool(true, None),
      "featuresThumbnailsEnabled" := Bool(true, Some("FEATURES_THUMBNAILS_ENABLED")),
      "featuresThumbnailsNumberThreads" := Number(4, Some("FEATURES_THUMBNAILS_NUM_THREADS")),
      "featuresThumbnailsFormat" := Text("jpg", None),
      "featuresThumbnailsInstantaneous" := Bool(false, None),
      "featuresMetricsEnabled" := Bool(true, Some("FEATURES_METRICS_ENABLED")),
      "featuresMetricsAdminOnly" := Bool(false, None),
      "featuresMetricsShowUserSpecific" := Bool(true, None),
      "featuresVersionChecking" := Bool(true, None)
    ]
  }

  function InvitesSettings(): Schema {
    map[
      "invitesEnabled" := Bool(true, None),
      "invitesLength" := Number(6, None)
    ]
  }

  function WebsiteSettings(): Schema {
    map[
      "websiteTitle" := Text("Zipline", Some("WEBSITE_TITLE")),
      "websiteThemeDefault" := Text("system", None),
      "websiteThemeDark" := Text("builtin:dark_gray", None),
      "websiteThemeLight" := Text("builtin:light_gray", None)
    ]
  }

  function OAuthSettings(): Schema {
    map[
      "oauthBypassLocalLogin" := Bool(false, None),
      "oauthLoginOnly" := Bool(false, None),
      "oauthDiscordClientId" := Nullable("", Some("OAUTH_DISCORD_CLIENT_ID")),
      "oauthDiscordClientSecret" := Nullable("", Some("OAUTH_DISCORD_CLIENT_SECRET")),
      "oauthDiscordRedirectUri" := Nullable("", Some("OAUTH_DISCORD_REDIRECT_URI")),
      "oauthDiscordAllowedIds" := List(None),
      "oauthDiscordDeniedIds" := List(None),
      "oauthGoogleClientId" := Nullable("", Some("OAUTH_GOOGLE_CLIENT_ID")),
      "oauthGoogleClientSecret" := Nullable("", Some("OAUTH_GOOGLE_CLIENT_SECRET")),
      "oauthGoogleRedirectUri" := Nullable("", Some("OAUTH_GOOGLE_REDIRECT_URI")),
      "oauthGithubClientId" := Nullable("", Some("OAUTH_GITHUB_CLIENT_ID")),
      "oauthGithubClientSecret" := Nullable("", Some("OAUTH_GITHUB_CLIENT_SECRET")),
      "oauthGithubRedirectUri" := Nullable("", Some("OAUTH_GITHUB_REDIRECT_URI")),
      "oauthOidcClientId" := Nullable("", Some("OAUTH_OIDC_CLIENT_ID")),
      "oauthOidcClientSecret" := Nullable("", Some("OAUTH_OIDC_CLIENT_SECRET")),
      "oauthOidcAuthorizeUrl" := Nullable("", Some("OAUTH_OIDC_AUTHORIZE_URL")),
      "oauthOidcTokenUrl" := Nullable("", Some("OAUTH_OIDC_TOKEN_URL")),
      "oauthOidcUserinfoUrl" := Nullable("", Some("OAUTH_OIDC_USERINFO_URL")),
      "oauthOidcRedirectUri" := Nullable("", Some("OAUTH_OIDC_REDIRECT_URI"))
    ]
  }

  function MfaSettings(): Schema {
    map[
      "mfaTotpEnabled" := Bool(false, Some("MFA_TOTP_ENABLED")),
      "mfaTotpIssuer" := Text("Zipline", Some("MFA_TOTP_ISSUER")),
      "mfaPasskeysEnabled" := Bool(false, Some("MFA_PASSKEYS_ENABLED")),
      "mfaPasskeysRpID" := Nullable("", Some("MFA_PASSKEYS_RP_ID")),
      "mfaPasskeysOrigin" := Nullable("", Some("MFA_PASSKEYS_ORIGIN"))
    ]
  }

  function RatelimitSettings(): Schema {
    map[
      "ratelimitEnabled" := Bool(true, None),
      "ratelimitMax" := Number(10, None),
      "ratelimitAdminBypass" := Bool(true, None),
      "ratelimitAllowList" := List(None)
    ]
  }

  function WebhooksSettings(): Schema {
    map[
      "httpWebhookOnUpload" := Nullable("", None),
      "httpWebhookOnShorten" := Nullable("", None),
      "discordOnUploadWebhookUrl" := Nullable("", None),
      "discordOnShortenWebhookUrl" := Nullable("", None)
    ]
  }

  function PwaSettings(): Schema {
    map[
      "pwaEnabled" := Bool(false, Some("PWA_ENABLED")),
      "pwaTitle" := Text("Zipline", None),
      "pwaShortName" := Text("Zipline", None),
      "pwaDescription" := Text("Zipline", None),
      "pwaThemeColor" := Text("#000000", None),
      "pwaBackgroundColor" := Text("#000000", None)
    ]
  }

  function DomainsSettings(): Schema {
    map[
      "domains" := List(Some("DOMAINS"))
    ]
  }

  function AllSettings(tempDirectory: string): Schema {
    CoreSettings(tempDirectory)
    + ChunksSettings()
    + TasksSettings()
    + FilesSettings()
    + FileHandlingSettings()
    + UrlsSettings()
    + FeaturesSettings()
    + InvitesSettings()
    + WebsiteSettings()
    + OAuthSettings()
    + MfaSettings()
    + RatelimitSettings()
    + WebhooksSettings()
    + PwaSettings()
    + DomainsSettings()
  }

  ghost predicate DurationsInRange(w: World) {
    forall s | w.otherDurations(s).Some? :: MIN_INT64 <= w.otherDurations(s).value <= MAX_INT64
  }

  lemma SoundSchemaSaves(w: World, schema: Schema, blob: map<string, Json>)
    requires w.schema == schema && DurationsInRange(w)
    ensures SavesUnchanged(w, blob)
  {
    PatchOfGet(w, blob);
  }

  /** The settings page can be saved unchanged, whatever is stored and whatever the environment
      says. */
  lemma SavingThePageChangesNothing(tempDirectory: string, w: World, blob: map<string, Json>)
    requires w.schema == AllSettings(tempDirectory) && DurationsInRange(w)
    ensures SavesUnchanged(w, blob)
  {
    SoundSchemaSaves(w, AllSettings(tempDirectory), blob);
  }
}
