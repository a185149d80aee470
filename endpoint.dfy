/** The API paths at which an edge device opens its websocket and fetches its token. */
module Endpoint {
  const DevicePrefix: string := "/devices/"
  const WebsocketSuffix: string := "/ws"

  /** `DEVICE_ENDPOINT` with the device id filled in. */
  function WebsocketEndpoint(deviceId: string): (e: string)
    ensures |e| == |DevicePrefix| + |deviceId| + |WebsocketSuffix|
    ensures e[..|DevicePrefix|] == DevicePrefix && e[|e| - |WebsocketSuffix|..] == WebsocketSuffix
    ensures DeviceIdOf(e) == deviceId
  {
    DevicePrefix + deviceId + WebsocketSuffix
  }

  /** The token endpoint is the websocket endpoint followed by `/token`. */
  function TokenEndpoint(deviceId: string): (e: string)
    ensures |e| == |WebsocketEndpoint(deviceId)| + 6
    ensures e[..|WebsocketEndpoint(deviceId)|] == WebsocketEndpoint(deviceId)
    ensures e[|e| - 6..] == "/token"
  {
    WebsocketEndpoint(deviceId) + "/token"
  }

  /** The device id between the fixed prefix and suffix of a websocket endpoint. */
  function DeviceIdOf(e: string): string
    requires |e| >= |DevicePrefix| + |WebsocketSuffix|
  {
    e[|DevicePrefix|..|e| - |WebsocketSuffix|]
  }

  /** Different devices never share an endpoint. */
  lemma EndpointsInjective(a: string, b: string)
    requires a != b
    ensures WebsocketEndpoint(a) != WebsocketEndpoint(b)
    ensures TokenEndpoint(a) != TokenEndpoint(b)
  {
  }
}
