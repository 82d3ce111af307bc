/** Construction of the bridge (app.py, `App.__init__`): the configuration is
    copied, the palette is fixed, and startup stops (`sys.exit`) at the first
    subscribed event type that has no renderer. */
module Application {
  import opened Wrappers
  import opened Text
  import opened Formatting
  import opened Handlers

  /** The configuration file's `irc` and `github` sections. The secret is the
      already encoded byte string. */
  datatype Config = Config(
    host: string,
    port: int,
    ssl: bool,
    nickname: string,
    realname: string,
    channels: seq<string>,
    secret: seq<byte>,
    events: seq<string>)

  /** A constructed bridge: its configuration and the palette handed to renderers. */
  datatype App = App(
    host: string,
    port: int,
    ssl: bool,
    nickname: string,
    realname: string,
    channels: seq<string>,
    formatting: map<string, string>,
    secret: seq<byte>,
    events: seq<string>)

  /** What a constructed bridge guarantees: every subscribed event type has a
      renderer, and the palette holds every name the renderers look up. */
  predicate Valid(app: App) {
    && Decorates(app.formatting)
    && forall e :: e in app.events ==> e in HandlerNames
  }

  /** `events[k]` is the first subscribed event type without a renderer. */
  predicate FirstUnsupported(events: seq<string>, k: int) {
    && 0 <= k < |events|
    && events[k] !in HandlerNames
    && forall j :: 0 <= j < k ==> events[j] in HandlerNames
  }

  /** The message `sys.exit` prints for an unsupported event type. */
  function UnsupportedMessage(event: string): string {
    event + " is not a supported event type."
  }

  /** `App.__init__`: fails exactly when some subscribed event type has no
      renderer, naming the first such one in configured order; otherwise the
      bridge carries the configuration unchanged and the fixed palette. */
  method NewApp(config: Config) returns (r: Result<App, string>)
    ensures r.Ok? <==> forall i :: 0 <= i < |config.events| ==> config.events[i] in HandlerNames
    ensures r.Ok? ==> Valid(r.value)
    ensures r.Ok? ==> r.value.formatting == Palette()
    ensures r.Ok? ==> r.value.events == config.events && r.value.channels == config.channels
    ensures r.Ok? ==> r.value.nickname == config.nickname && r.value.realname == config.realname
    ensures r.Ok? ==> r.value.secret == config.secret
    ensures r.Ok? ==> r.value.host == config.host && r.value.port == config.port && r.value.ssl == config.ssl
    ensures r.Err? ==> exists k :: FirstUnsupported(config.events, k) && r.error == UnsupportedMessage(config.events[k])
  {
    var i := 0;
    while i < |config.events|
      invariant 0 <= i <= |config.events|
      invariant forall j :: 0 <= j < i ==> config.events[j] in HandlerNames
    {
      if config.events[i] !in HandlerNames {
        assert FirstUnsupported(config.events, i);
        return Err(UnsupportedMessage(config.events[i]));
      }
      i := i + 1;
    }
    r := Ok(App(config.host, config.port, config.ssl, config.nickname, config.realname,
                config.channels, Palette(), config.secret, config.events));
  }
}
