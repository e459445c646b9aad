/** The exception kinds that the configuration and hook-setup paths can raise. */
module Exceptions {

  datatype Error =
    /** The caller gave no way to find a configuration file (troika's `InvocationError`). */
    | InvocationError(msg: string)
    /** The configuration is malformed or incomplete (troika's `ConfigurationError`). */
    | ConfigurationError(msg: string)
    /** A mapping lookup found no entry for `key` (Python's `KeyError`). */
    | KeyError(key: string)
    /** Subscripting or joining a value of the wrong shape (Python's `TypeError`). */
    | TypeError
    /** Calling `.get` on a value that is not a mapping (Python's `AttributeError`). */
    | AttributeError
    /** Any exception raised by a collaborator outside the model (file opening, the YAML
        scanner, a hook constructor, ...), carried along unchanged. */
    | Raised(kind: string, msg: string)

  /** Message of the `ConfigurationError` raised when no `sites` key is defined. */
  const NoSitesMessage: string := "No 'sites' defined in configuration"

  /** Message of the `InvocationError` raised when no configuration source is given. */
  const NoConfigMessage: string := "No configuration file found"
}
