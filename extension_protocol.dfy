/** One requested extension token, as parsed from a `Sec-WebSocket-Extensions` request header. */
module ExtensionProtocols {

  /** An extension name with its parameters in the order they appeared on the wire. */
  datatype WebSocketExtensionProtocol = WebSocketExtensionProtocol(name: string, parameters: seq<string>)
}
