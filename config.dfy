/** The configuration service that loads a `.env` file at an optional path, and the reading of the
    settings from the environment that both configuration services share. The environment is a
    map given to each read; the `.env` loader is recorded as a ghost log of the paths it was given. */
module Config {
  import opened Outcomes
  import opened Types

  const NotLoadedMessage := "Configuration has not been loaded. Call load() first."
  const MissingMessage := "Missing required environment variables: GITHUB_USERNAME, GITHUB_TOKEN, OPENAI_API_KEY"
  const DefaultModel := "gpt-3.5-turbo"

  /** `process.env[key]` as a condition sees it: absent and empty are both "". */
  function EnvText(env: map<string, string>, key: string): (r: string)
    ensures r != "" <==> key in env && env[key] != ""
    ensures r != "" ==> r == env[key]
  {
    if key in env then env[key] else ""
  }

  /** The three required variables are present and non-empty. */
  predicate HasRequired(env: map<string, string>)
  {
    EnvText(env, "GITHUB_USERNAME") != "" && EnvText(env, "GITHUB_TOKEN") != "" && EnvText(env, "OPENAI_API_KEY") != ""
  }

  /** Every setting is non-empty. */
  predicate Complete(c: AppConfig)
  {
    c.githubUsername != "" && c.githubToken != "" && c.openaiApiKey != "" && c.openaiModel != ""
  }

  /** The settings read from `env`: the missing-variables error when a required variable is absent
      or empty; otherwise the three credentials as given and the model, or the default model when
      `OPENAI_MODEL` is absent or empty. */
  function ConfigFromEnv(env: map<string, string>): (r: Outcome<AppConfig>)
    ensures r.Ok? <==> HasRequired(env)
    ensures r.Fail? ==> r.error == MissingMessage
    ensures r.Ok? ==> r.value.githubUsername == env["GITHUB_USERNAME"]
    ensures r.Ok? ==> r.value.githubToken == env["GITHUB_TOKEN"]
    ensures r.Ok? ==> r.value.openaiApiKey == env["OPENAI_API_KEY"]
    ensures r.Ok? && "OPENAI_MODEL" in env && env["OPENAI_MODEL"] != "" ==> r.value.openaiModel == env["OPENAI_MODEL"]
    ensures r.Ok? && !("OPENAI_MODEL" in env && env["OPENAI_MODEL"] != "") ==> r.value.openaiModel == DefaultModel
    ensures r.Ok? ==> Complete(r.value)
  {
    var username := EnvText(env, "GITHUB_USERNAME");
    var token := EnvText(env, "GITHUB_TOKEN");
    var apiKey := EnvText(env, "OPENAI_API_KEY");
    if username == "" || token == "" || apiKey == "" then Fail(MissingMessage)
    else
      var model := EnvText(env, "OPENAI_MODEL");
      Ok(AppConfig(username, token, apiKey, if model != "" then model else DefaultModel))
  }

  /** The options given to the `.env` loader: the path when one was given and is not empty,
      otherwise none (`undefined`). */
  function LoaderPath(envPath: Option<string>): (r: Option<string>)
    ensures r.Some? <==> envPath.Some? && envPath.value != ""
    ensures r.Some? ==> r == envPath
  {
    if envPath.Some? && envPath.value != "" then envPath else None
  }

  class DotEnvConfigService {
    var config: Option<AppConfig>
    var isLoaded: bool
    const envPath: Option<string>
    /** The options of every call to the `.env` loader so far. */
    ghost var loaderCalls: seq<Option<string>>

    ghost predicate Valid()
      reads this
    {
      && (config.Some? ==> isLoaded && Complete(config.value))
      && loaderCalls == (if isLoaded then [LoaderPath(envPath)] else [])
    }

    constructor(envPath: Option<string>)
      ensures Valid()
      ensures this.envPath == envPath && !isLoaded && config == None && loaderCalls == []
    {
      this.envPath := envPath;
      isLoaded := false;
      config := None;
      loaderCalls := [];
    }

    /** `load`: runs the loader the first time only. */
    method Load()
      requires Valid()
      modifies this
      ensures Valid()
      ensures isLoaded && config == old(config)
      ensures loaderCalls == if old(isLoaded) then old(loaderCalls) else old(loaderCalls) + [LoaderPath(envPath)]
    {
      if isLoaded {
        return;
      }
      loaderCalls := loaderCalls + [LoaderPath(envPath)];
      isLoaded := true;
    }

    /** `getConfig`: the not-loaded error before `load`; the cached settings once there are some;
        otherwise the settings read from `env`, cached only when they could be read. */
    method GetConfig(env: map<string, string>) returns (r: Outcome<AppConfig>)
      requires Valid()
      modifies this
      ensures Valid()
      ensures isLoaded == old(isLoaded) && loaderCalls == old(loaderCalls)
      ensures !isLoaded ==> r == Fail(NotLoadedMessage) && config == old(config)
      ensures isLoaded && old(config).Some? ==> r == Ok(old(config).value) && config == old(config)
      ensures isLoaded && old(config).None? ==> r == ConfigFromEnv(env)
      ensures isLoaded && old(config).None? ==> config == if r.Ok? then Some(r.value) else None
    {
      if !isLoaded {
        return Fail(NotLoadedMessage);
      }
      if config.Some? {
        return Ok(config.value);
      }
      var settings := ConfigFromEnv(env);
      if settings.Fail? {
        return settings;
      }
      config := Some(settings.value);
      r := Ok(settings.value);
    }
  }

  /** Reading before loading fails with the not-loaded error. */
  method GetBeforeLoad(envPath: Option<string>, env: map<string, string>) returns (r: Outcome<AppConfig>)
    ensures r == Fail(NotLoadedMessage)
  {
    var service := new DotEnvConfigService(envPath);
    r := service.GetConfig(env);
  }

  /** After a successful read the settings are cached: a later read returns them whatever the
      environment has become, and loading again does not run the loader again. */
  method ReadTwice(envPath: Option<string>, env: map<string, string>, later: map<string, string>)
    returns (first: Outcome<AppConfig>, second: Outcome<AppConfig>, ghost loaderRuns: nat)
    ensures first == ConfigFromEnv(env)
    ensures first.Ok? ==> second == first
    ensures first.Fail? ==> second == ConfigFromEnv(later)
    ensures loaderRuns == 1
  {
    var service := new DotEnvConfigService(envPath);
    service.Load();
    first := service.GetConfig(env);
    service.Load();
    second := service.GetConfig(later);
    loaderRuns := |service.loaderCalls|;
  }
}
