# troika hook setup and site configuration, in Dafny

This project models two pieces of troika's hook-setup path: the job-submission
tool's configuration store and its hook dispatcher.

- **Configuration store** (`src/troika/config.py`), module `Configuration`.
  - `Config.get_site_config` is a two-level lookup `data['sites'][name]` over an
    immutable `map<string, Value>`. It gives a tagged result (`SiteLookup`).
    A missing `sites` key gives `ConfigurationError`. A missing site gives `KeyError`.
    A `sites` value that is not a mapping gives `TypeError`, because subscripting it
    with a string raises that in Python.
  - `get_config` first picks the source: the explicit argument, else the
    `TROIKA_CONFIG_FILE` environment variable (an `Option<string>`), else
    `InvocationError`. It then maps an abstract parse outcome to a result. Reading and
    YAML parsing are a function parameter `read: Source -> ParseOutcome`.
  - An empty document loads as `None`, and `UserDict(None)` is an empty configuration.
    The model keeps that case.
- **Hook dispatcher** (`src/troika/hook.py`), module `Hooks`.
  - `setup_hooks` is a pure function. It returns an `Outcome`: either `Done` or
    `Aborted(error)`, together with the `Trace` of what happened before it stopped.
    A trace is the ordered `instantiate` calls plus the enable log entries.
  - Module discovery is assumed to have finished. The registry of hook kinds is the
    ordered sequence of their names (dict insertion order).
  - `spec.instantiate` is a parameter that either succeeds or raises an exception.
  - `RunSetupHooks` is the same loop written imperatively. It is proved equal to the
    functional `SetupHooks`.

Python behaviours the model makes explicit:
- `if req:` is Python truthiness (`Values.Truthy`). A key present with a null value is
  passed to `instantiate` as `None`, not replaced by `[]`.
- `", ".join(req)` is an argument of the log call, so it is evaluated whenever `req` is
  truthy, whatever the log level. For a truthy requirement that does not iterate to strings
  only (`Values.Joinable`), setup stops with `TypeError` after that hook was instantiated.
- `.get` on a site block that is not a mapping raises `AttributeError`. That happens only
  inside the loop, so a non-mapping block is harmless when no hook kind is registered.
- Only `yaml.parser.ParserError` is converted to `ConfigurationError` (config.py:72-73).
  Scanner errors are not `ParserError` subclasses, so they propagate unchanged, as do
  errors from opening the file (`ParseOutcome.ReadFailure`).
- An environment variable set to the empty string is not `None`. It selects the path `""`,
  whose opening fails in `read`.

## Model

| member | source | states |
|---|---|---|
| Configuration.GetSiteConfig | src/troika/config.py:16-36 | `ConfigurationError` (with its fixed message) exactly when there is no `sites` key; `TypeError` exactly when `sites` is present but not a mapping; `KeyError(name)` exactly when `sites` is a mapping lacking the site; success exactly when both exist, returning `sites[name]` unmodified |
| Configuration.LookupReadsOnlySites | src/troika/config.py:31-36 | the lookup depends only on the `sites` entry: configurations agreeing on it give the same result for every site |
| Configuration.ResolveSource | src/troika/config.py:54-57 | an explicit source always wins; otherwise the environment path is used; `InvocationError("No configuration file found")` exactly when neither is given |
| Configuration.LoadConfig | src/troika/config.py:70-73 | a parsed mapping is wrapped exactly; an empty document gives an empty configuration; a parser error becomes `ConfigurationError` carrying the parser's text; any other failure is raised unchanged |
| Configuration.GetConfig | src/troika/config.py:39-73 | no source and no environment variable gives `InvocationError`; otherwise the result is the load of what the chosen source reads to |
| Configuration.ExplicitSourceWins | src/troika/config.py:54-55 | with an explicit source, the environment is not consulted: any two environments give the same result |
| Hooks.SetupHooksNonMappingBlock | src/troika/hook.py:23-27 | setup raises `AttributeError` before any instantiation exactly when the site is found, its block is not a mapping and at least one hook kind is registered |
| Hooks.SetupHooksLookupFirst | src/troika/hook.py:23-28 | a failed site lookup is raised unchanged, with no hook instantiated and nothing logged |
| Hooks.SetupHooksCompletes | src/troika/hook.py:23-30 | setup completes exactly when the site is found and every hook kind instantiates (and logs) without an exception; then every registered kind is instantiated exactly once, in registry order, with the block's value for its name or `[]`, and the log names exactly the enabled kinds |
| Hooks.WalkCompletes | src/troika/hook.py:26-30 | over a mapping block, the loop completes exactly when every step succeeds, and its trace is then the full ordered instantiation list and the ordered enable entries |
| Hooks.WalkAborts | src/troika/hook.py:26-30 | an aborted loop stopped at the first failing kind with that kind's exception; exactly the kinds up to it were instantiated, in order, and the log holds the enabled kinds before it |
| Hooks.EnabledEventsExact | src/troika/hook.py:29-30 | an enable entry for a kind exists if and only if its requirement is non-empty, and every entry carries its kind's requirement |
| Hooks.UnlistedKeysIgnored | src/troika/hook.py:26-27 | a site-block key that names no registered kind changes neither the instantiations, the log nor the error |
| Hooks.NotifyExample | src/troika/hook.py:26-30 | a site naming `notify` with one address, beside an unnamed registered `audit` kind: both are instantiated in order, `audit` with `[]`, and only `notify` is logged |
| Hooks.RunSetupHooks | src/troika/hook.py:23-30 | the imperative loop (lookup, then walk accumulating calls and log entries, stopping at the first exception) computes exactly `SetupHooks` |

## Left out

- Opening files, the `os.fspath` path-likeness test and the YAML parser itself: these are I/O and a foreign library, represented by the `read` parameter and its `ParseOutcome`.
- The debug log line naming the configuration file (`name` attribute or `repr`): it is observability only and does not affect control flow.
- The file handle opened for a path is never closed explicitly: this is resource handling, not modelled behaviour.
- A YAML document whose top level is a list or a scalar: what `UserDict` does with it is library behaviour. `ParseOutcome` admits only a mapping or an empty document.
- Non-string mapping keys and YAML floats and timestamps: `Value` has string keys and integer, boolean, string and null scalars.
- The read-only nature of `get_site_config`: in the model it holds by construction. `Config` is an immutable value and the lookup returns a `Value`, never a new configuration.
- `discover_modules` and registration by import: their code is not part of this model. The registry is a given ordered sequence, so duplicate-name policy and discovery idempotence are not modelled.
- `Constructor`: the model assumes `spec.instantiate(req)` does not change `req`. In Python it receives the configuration's own list object, and `if req:` and `", ".join(req)` read that object after the call, so an `instantiate` that emptied or edited the list would change whether and what is logged. `EnabledEventsExact` and the log clause of `SetupHooksCompletes` describe the requirement as it was before the call. The assumption is reasonable because `instantiate` lives in hook code that is not part of this model.
- What `spec.instantiate` does, and the lifecycle decorators `at_startup`, `pre_submit` and `at_exit`: their code is not part of this model. Construction is an abstract `Constructor` that succeeds or raises.
- The log message text and level: a log entry is the abstract `Enabled(name, req)`. The joined string is not built; only whether joining raises is modelled.
- The messages carried by `TypeError` and `AttributeError`: Python's wording is not modelled, only the exception kind.
