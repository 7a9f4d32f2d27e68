/** The configuration service that loads the default `.env` file. The environment is a map given
    to each read; the number of runs of the `.env` loader is a ghost counter. */
module DotEnvConfig {
  import opened Outcomes
  import opened Types
  import opened Config

  class DotEnvConfigService {
    var config: Option<AppConfig>
    var isLoaded: bool
    /** How many times the `.env` loader has run. */
    ghost var loaderRuns: nat

    ghost predicate Valid()
      reads this
    {
      && (config.Some? ==> isLoaded && Complete(config.value))
      && loaderRuns == (if isLoaded then 1 else 0)
    }

    constructor()
      ensures Valid()
      ensures !isLoaded && config == None && loaderRuns == 0
    {
      isLoaded := false;
      config := None;
      loaderRuns := 0;
    }

    /** `load`: runs the loader the first time only. */
    method Load()
      requires Valid()
      modifies this
      ensures Valid()
      ensures isLoaded && config == old(config)
      ensures loaderRuns == 1
    {
      if isLoaded {
        return;
      }
      loaderRuns := loaderRuns + 1;
      isLoaded := true;
    }

    /** `getConfig`: the not-loaded error before `load`; the cached settings once there are some;
        otherwise the settings read from `env`, cached only when they could be read. */
    method GetConfig(env: map<string, string>) returns (r: Outcome<AppConfig>)
      requires Valid()
      modifies this
      ensures Valid()
      ensures isLoaded == old(isLoaded) && loaderRuns == old(loaderRuns)
      ensures !isLoaded ==> r == Fail(NotLoadedMessage) && config == old(config)
      ensures isLoaded && old(config).Some? ==> r == Ok(old(config).value) && config == old(config)
      ensures isLoaded && old(config).None? ==> r == ConfigFromEnv(env)
      ensures isLoaded && old(config).None? ==> config == if r.Ok? then Some(r.value) else None
    {
      if !isLoaded {
        return Fail(NotLoadedMessage);
      }
      if config.Some? {
        return Ok(config.value);
      }
      var settings := ConfigFromEnv(env);
      if settings.Fail? {
        return settings;
      }
      config := Some(settings.value);
      r := Ok(settings.value);
    }
  }

  /** A failed read caches nothing: once the missing variables are set, a read succeeds and
      returns them. */
  method ReadAfterMissing(env: map<string, string>, fixed: map<string, string>)
    returns (first: Outcome<AppConfig>, second: Outcome<AppConfig>)
    requires !HasRequired(env)
    ensures first == Fail(MissingMessage)
    ensures second == ConfigFromEnv(fixed)
  {
    var service := new DotEnvConfigService();
    service.Load();
    first := service.GetConfig(env);
    second := service.GetConfig(fixed);
  }

  /** After a successful read the settings are cached: a later read returns them whatever the
      environment has become. */
  method ReadTwice(env: map<string, string>, later: map<string, string>)
    returns (first: Outcome<AppConfig>, second: Outcome<AppConfig>)
    ensures first == ConfigFromEnv(env)
    ensures first.Ok? ==> second == first
  {
    var service := new DotEnvConfigService();
    service.Load();
    service.Load();
    first := service.GetConfig(env);
    second := service.GetConfig(later);
  }
}
