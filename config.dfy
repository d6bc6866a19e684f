/**
 * The forwarder's settings, read from the process environment.
 *
 * The environment is a map from variable name to value; a name that is not
 * in the map is unset (what `os.getenv` reports as `None`). Five settings are
 * required and must be present and non-empty; the ledger file path is
 * optional and falls back to a default only when it is unset.
 */
module Config {

  const ApiIdKey: string := "API_ID"
  const ApiHashKey: string := "API_HASH"
  const PhoneNumberKey: string := "PHONE_NUMBER"
  const SourceChannelKey: string := "SOURCE_CHANNEL"
  const TargetChannelKey: string := "TARGET_CHANNEL"

  /** The settings without which the forwarder refuses to start. */
  const RequiredKeys: seq<string> :=
    [ApiIdKey, ApiHashKey, PhoneNumberKey, SourceChannelKey, TargetChannelKey]

  const LedgerPathKey: string := "FORWARDED_MESSAGES_FILE"
  const DefaultLedgerPath: string := "forwarded_messages.json"

  const MissingSettingsMessage: string :=
    "Missing required environment variables. Check your .env file."

  /** What a lookup of one environment variable yields. */
  datatype Setting = Unset | Value(text: string)

  /** A validated configuration. */
  datatype Settings = Settings(
    apiId: string,
    apiHash: string,
    phoneNumber: string,
    sourceChannel: string,
    targetChannel: string,
    ledgerPath: string)

  /** The outcome of constructing the forwarder's configuration. */
  datatype Configured = Configured(settings: Settings) | ConfigError(message: string)

  /** `os.getenv(key)`: the variable's value when it is set, `Unset` (Python's `None`) otherwise. */
  function Lookup(env: map<string, string>, key: string): (s: Setting)
    ensures s.Value? <==> key in env
    ensures s.Value? ==> s.text == env[key]
  {
    if key in env then Value(env[key]) else Unset
  }

  /** Truthiness of a looked-up value: an unset variable and an empty string are both false. */
  predicate Truthy(s: Setting) {
    s.Value? && s.text != ""
  }

  /** A setting the forwarder cannot start without: unset or empty. */
  predicate Missing(env: map<string, string>, key: string) {
    key !in env || env[key] == ""
  }

  /** Python's `all` over a list of looked-up values: true exactly when every value is truthy. */
  function All(values: seq<Setting>): (b: bool)
    ensures b <==> forall i :: 0 <= i < |values| ==> Truthy(values[i])
  {
    if values == [] then true
    else
      assert forall i :: 1 <= i < |values| ==> values[1..][i - 1] == values[i];
      Truthy(values[0]) && All(values[1..])
  }

  /**
   * The ledger file path: the variable's value whenever it is set (even to
   * the empty string), the default otherwise.
   */
  function LedgerPath(env: map<string, string>): (path: string)
    ensures LedgerPathKey !in env ==> path == DefaultLedgerPath
    ensures LedgerPathKey in env ==> path == env[LedgerPathKey]
  {
    match Lookup(env, LedgerPathKey)
    case Unset => DefaultLedgerPath
    case Value(p) => p
  }

  /**
   * Validation done when the forwarder is constructed: it fails with a
   * configuration error exactly when one of the required settings is unset
   * or empty, and otherwise carries the settings as given.
   */
  function Validate(env: map<string, string>): (r: Configured)
    ensures r.ConfigError? <==> exists i :: 0 <= i < |RequiredKeys| && Missing(env, RequiredKeys[i])
    ensures r.ConfigError? ==> r.message == MissingSettingsMessage
    ensures r.Configured? ==>
      && Lookup(env, ApiIdKey) == Value(r.settings.apiId)
      && Lookup(env, ApiHashKey) == Value(r.settings.apiHash)
      && Lookup(env, PhoneNumberKey) == Value(r.settings.phoneNumber)
      && Lookup(env, SourceChannelKey) == Value(r.settings.sourceChannel)
      && Lookup(env, TargetChannelKey) == Value(r.settings.targetChannel)
      && r.settings.ledgerPath == LedgerPath(env)
  {
    var values := [Lookup(env, ApiIdKey), Lookup(env, ApiHashKey), Lookup(env, PhoneNumberKey),
                   Lookup(env, SourceChannelKey), Lookup(env, TargetChannelKey)];
    assert forall i :: 0 <= i < 5 ==> values[i] == Lookup(env, RequiredKeys[i]);
    if !All(values) then
      ConfigError(MissingSettingsMessage)
    else
      Configured(Settings(values[0].text, values[1].text, values[2].text,
                          values[3].text, values[4].text, LedgerPath(env)))
  }
}
