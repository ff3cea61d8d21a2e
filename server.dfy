/**
  Server configuration and the `Broker` that holds it (package `server`).
  `NewServer` validates the three required settings in a fixed order.
 */
module Server {
  import opened Wrappers
  import Websockets

  datatype Config = Config(Port: string, JWTSecret: string, DatabaseUrl: string)

  /** The running server's state: the configuration and the hub it was
      built with. */
  datatype Broker = Broker(config: Config, hub: Websockets.Hub?) {

    function Config(): Config
    {
      config
    }

    function Hub(): Websockets.Hub?
    {
      hub
    }
  }

  /** Builds a broker, or names the first required setting that is empty. */
  function NewServer(config: Config, hub: Websockets.Hub?): (r: Result<Broker, string>)
    ensures r.Success? <==> config.Port != "" && config.JWTSecret != "" && config.DatabaseUrl != ""
    ensures r.Success? ==> r.value.Config() == config && r.value.Hub() == hub
  {
    if config.Port == "" then Failure("port is required")
    else if config.JWTSecret == "" then Failure("jwt secret is required")
    else if config.DatabaseUrl == "" then Failure("database url is required")
    else Success(Broker(config, hub))
  }

  /** The names of the empty required settings, in the order they are
      checked. */
  function MissingSettings(config: Config): seq<string>
  {
    (if config.Port == "" then ["port"] else [])
    + (if config.JWTSecret == "" then ["jwt secret"] else [])
    + (if config.DatabaseUrl == "" then ["database url"] else [])
  }

  /** NewServer fails exactly when some setting is missing, and its error
      names the first missing one: an empty port is reported whatever the
      other settings hold, and so on down the order. */
  lemma NewServerReportsFirstMissing(config: Config, hub: Websockets.Hub?)
    ensures NewServer(config, hub).Failure? <==> MissingSettings(config) != []
    ensures NewServer(config, hub).Failure? ==>
              NewServer(config, hub).error == MissingSettings(config)[0] + " is required"
  {
  }
}
