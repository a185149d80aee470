/** The URIs an edge device uses to reach the server, built from its connection settings. */
module DeviceConnection {
  import opened Wrappers
  import Endpoint

  datatype ConnectionSettings = ConnectionSettings(serverHost: string, useSsl: bool)

  /** The settings' default: connections use SSL unless told otherwise. */
  function DefaultSettings(serverHost: string): (s: ConnectionSettings)
    ensures s.useSsl && s.serverHost == serverHost
  {
    ConnectionSettings(serverHost, true)
  }

  function SslSuffix(s: ConnectionSettings): string
  {
    if s.useSsl then "s" else ""
  }

  /**
   * The websocket URI; a token, when given, is attached by `appendToken`, the
   * query-building helper the endpoint module is expected to supply.
   */
  function WebsocketUri(s: ConnectionSettings, deviceId: string, token: Option<string>,
                        appendToken: (string, string) -> string): (uri: string)
    ensures token.Some? ==> uri == appendToken(PlainWebsocketUri(s, deviceId), token.value)
    ensures token.None? ==> uri == PlainWebsocketUri(s, deviceId)
  {
    var plain := "ws" + SslSuffix(s) + "://" + s.serverHost + Endpoint.WebsocketEndpoint(deviceId);
    if token.None? then plain else appendToken(plain, token.value)
  }

  /** The websocket URI before any token is attached. */
  function PlainWebsocketUri(s: ConnectionSettings, deviceId: string): (uri: string)
    ensures uri == (if s.useSsl then "wss://" else "ws://") + s.serverHost + Endpoint.WebsocketEndpoint(deviceId)
  {
    "ws" + SslSuffix(s) + "://" + s.serverHost + Endpoint.WebsocketEndpoint(deviceId)
  }

  /** The HTTP URI at which the device fetches its websocket token. */
  function TokenUri(s: ConnectionSettings, deviceId: string): (uri: string)
    ensures uri == (if s.useSsl then "https://" else "http://") + s.serverHost + Endpoint.TokenEndpoint(deviceId)
  {
    "http" + SslSuffix(s) + "://" + s.serverHost + Endpoint.TokenEndpoint(deviceId)
  }

  /** The token URI is the token-less websocket URI with `ws` turned into `http` and `/token` appended. */
  lemma TokenUriMirrorsWebsocketUri(s: ConnectionSettings, deviceId: string)
    ensures var ws := PlainWebsocketUri(s, deviceId);
      |ws| >= 2 && TokenUri(s, deviceId) == "http" + ws[2..] + "/token"
  {
    var ws := PlainWebsocketUri(s, deviceId);
    assert ws[2..] == SslSuffix(s) + "://" + s.serverHost + Endpoint.WebsocketEndpoint(deviceId);
  }

  /** Without SSL the scheme is plain, with SSL it is secure, for both URIs. */
  lemma SchemeFollowsSsl(s: ConnectionSettings, deviceId: string)
    ensures var ws := PlainWebsocketUri(s, deviceId);
      |ws| >= 6 && (s.useSsl <==> ws[..6] == "wss://")
    ensures var t := TokenUri(s, deviceId);
      |t| >= 8 && (s.useSsl <==> t[..8] == "https://")
  {
    var ws := PlainWebsocketUri(s, deviceId);
    var t := TokenUri(s, deviceId);
    if !s.useSsl {
      assert ws[2] == ':' && ws[..6][2] == ws[2];
      assert t[4] == ':' && t[..8][4] == t[4];
    }
  }
}
