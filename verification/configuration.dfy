/** The configuration store: per-site lookup in a loaded configuration mapping, and
    loading, i.e. choosing the configuration source and turning the parse outcome
    into a configuration or an error. Opening files and YAML parsing are abstract. */
module Configuration {
  import opened Results
  import opened Values
  import opened Exceptions

  /** A loaded configuration: the top-level mapping of the YAML document. */
  datatype Config = Config(data: map<string, Value>)

  /** Outcome of a site lookup, one tag per way it can end. */
  datatype SiteLookup =
    | Found(block: Value)
    /** the configuration has no top-level `sites` key */
    | NoSites
    /** `sites` is present but is not a mapping, so it cannot be subscripted by name */
    | SitesNotMapping
    /** `sites` is a mapping without the requested site */
    | NoSuchSite

  /** The two-level lookup `data['sites'][name]`. */
  function LookupSite(config: Config, name: string): SiteLookup {
    if "sites" !in config.data then NoSites
    else match config.data["sites"]
      case VMap(sites) => if name in sites then Found(sites[name]) else NoSuchSite
      case _ => SitesNotMapping
  }

  /** The exception each lookup tag stands for; `Found` is not a failure. */
  function LookupError(name: string, r: SiteLookup): Error
    requires !r.Found?
  {
    match r
    case NoSites => ConfigurationError(NoSitesMessage)
    case SitesNotMapping => TypeError
    case NoSuchSite => KeyError(name)
  }

  /** `Config.get_site_config`: the site's block, or the exception it raises.
      A missing `sites` key and a missing site stay two different failures. */
  function GetSiteConfig(config: Config, name: string): (r: Result<Value, Error>)
    ensures r.Failure? && r.error.ConfigurationError? <==> "sites" !in config.data
    ensures r.Failure? && r.error.KeyError? <==>
              "sites" in config.data && config.data["sites"].VMap?
              && name !in config.data["sites"].entries
    ensures r.Failure? && r.error.KeyError? ==> r.error.key == name
    ensures r.Failure? && r.error.ConfigurationError? ==> r.error.msg == NoSitesMessage
    ensures r == Failure(TypeError) <==> "sites" in config.data && !config.data["sites"].VMap?
    ensures r.Success? <==>
              "sites" in config.data && config.data["sites"].VMap?
              && name in config.data["sites"].entries
    ensures r.Success? ==> r.value == config.data["sites"].entries[name]
  {
    var found := LookupSite(config, name);
    if found.Found? then Success(found.block) else Failure(LookupError(name, found))
  }

  /** The lookup reads nothing but the `sites` entry: two configurations that agree on
      it (both lack it, or both hold the same value) give the same answer for every site. */
  lemma LookupReadsOnlySites(c1: Config, c2: Config, name: string)
    requires ("sites" in c1.data) == ("sites" in c2.data)
    requires "sites" in c1.data ==> c1.data["sites"] == c2.data["sites"]
    ensures GetSiteConfig(c1, name) == GetSiteConfig(c2, name)
  {
  }

  /** Where a configuration can be read from: a filesystem path, or an object that is
      already readable (described by its name or representation). */
  datatype Source = PathSource(path: string) | StreamSource(description: string)

  /** What reading and parsing a source produced. */
  datatype ParseOutcome =
    /** a document whose top level is a mapping */
    | Document(data: map<string, Value>)
    /** an empty document, which the YAML loader returns as `None` */
    | EmptyDocument
    /** the YAML parser rejected the text, with its diagnostic message */
    | ParserError(msg: string)
    /** any other exception raised while opening, scanning or loading */
    | ReadFailure(error: Error)

  /** Chooses the configuration source: the explicit argument when one is given,
      otherwise the path in the `TROIKA_CONFIG_FILE` environment variable. */
  function ResolveSource(explicit: Option<Source>, env: Option<string>): (r: Result<Source, Error>)
    ensures explicit.Some? ==> r == Success(explicit.value)
    ensures explicit.None? && env.Some? ==> r == Success(PathSource(env.value))
    ensures r.Failure? <==> explicit.None? && env.None?
    ensures r.Failure? ==> r.error == InvocationError(NoConfigMessage)
  {
    match explicit
    case Some(s) => Success(s)
    case None =>
      match env
      case Some(p) => Success(PathSource(p))
      case None => Failure(InvocationError(NoConfigMessage))
  }

  /** Turns a parse outcome into a configuration: only a parser error is converted, into a
      `ConfigurationError` carrying the parser's text; other failures pass through as raised. */
  function LoadConfig(outcome: ParseOutcome): (r: Result<Config, Error>)
    ensures outcome.Document? ==> r == Success(Config(outcome.data))
    ensures outcome.EmptyDocument? ==> r == Success(Config(map[]))
    ensures outcome.ParserError? ==> r == Failure(ConfigurationError(outcome.msg))
    ensures outcome.ReadFailure? ==> r == Failure(outcome.error)
  {
    match outcome
    case Document(data) => Success(Config(data))
    case EmptyDocument => Success(Config(map[]))
    case ParserError(msg) => Failure(ConfigurationError(msg))
    case ReadFailure(e) => Failure(e)
  }

  /** `get_config`: resolve the source, read it with `read` (opening and YAML parsing,
      outside the model), and load the result. */
  function GetConfig(explicit: Option<Source>, env: Option<string>, read: Source -> ParseOutcome)
    : (r: Result<Config, Error>)
    ensures explicit.None? && env.None? ==> r == Failure(InvocationError(NoConfigMessage))
    ensures explicit.Some? ==> r == LoadConfig(read(explicit.value))
    ensures explicit.None? && env.Some? ==> r == LoadConfig(read(PathSource(env.value)))
  {
    match ResolveSource(explicit, env)
    case Failure(e) => Failure(e)
    case Success(source) => LoadConfig(read(source))
  }

  /** The environment is consulted only when no explicit source is given: with one,
      any two environments give the same result. */
  lemma ExplicitSourceWins(s: Source, env1: Option<string>, env2: Option<string>,
                           read: Source -> ParseOutcome)
    ensures GetConfig(Some(s), env1, read) == GetConfig(Some(s), env2, read)
  {
  }
}
