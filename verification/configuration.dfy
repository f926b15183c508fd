/**
 * The plugin's stored settings (the C# class `Configuration`), as a value.
 * Saving and loading go through the host and are not modelled.
 */
module Configuration {
  import opened Wrappers
  import opened Channels

  /** `Message` is a C# string reference and may be null, hence the `Option`.
      `IntervalSeconds` is a 32-bit integer that is only ever compared, never
      computed with, so an unbounded `int` loses nothing. */
  datatype Settings = Settings(
    version: int,
    enabled: bool,
    message: Option<string>,
    intervalSeconds: int,
    channel: Channel)

  /** A fresh configuration: version 1, switched off, "Hello, world!" every five minutes in
      Say, the enum's first member. */
  function Default(): (d: Settings)
    ensures !d.enabled
    ensures d.intervalSeconds == 5 * 60
    ensures ValueOf(d.channel) == 0
  {
    Settings(1, false, Some("Hello, world!"), 300, Say)
  }

  /** The configured message, with null read as the empty string. */
  function MessageOrEmpty(config: Settings): string {
    config.message.GetOr("")
  }
}
