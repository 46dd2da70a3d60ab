/**
 * The parts of the themekit `kit` package that the command arbiter consumes:
 * environment configurations, assets, asset events and theme clients.
 * Only the fields the arbiter reads or writes are spelled out.
 */
module Kit {
  import opened Wrappers

  /** The name of the environment used when the operator names none. */
  const DefaultEnvironment: string := "development"

  /**
   * The settings of one environment. `environment`, `ignoredFiles`,
   * `ignores` and `proxy` are the fields the arbiter reads or clears;
   * every other setting (password, theme id, store domain, ...) is
   * carried opaquely in `settings`.
   */
  datatype Configuration = Configuration(
    environment: string,
    ignoredFiles: seq<string>,
    ignores: seq<string>,
    proxy: string,
    settings: map<string, string>)

  /** A theme file, identified by its key (its path in the theme). */
  datatype Asset = Asset(key: string, value: string, checksum: string)

  /** What a change-set intends to do with an asset. */
  datatype EventType = Update | Remove

  /** A client bound to one environment's configuration. */
  datatype ThemeClient = ThemeClient(config: Configuration)

  /** Why loading the environments of a configuration file failed. */
  datatype LoadError = NotExist | Unreadable(cause: string)
}
