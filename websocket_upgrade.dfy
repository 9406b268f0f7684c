/** The server side of the WebSocket opening handshake (section 4.2.2 of RFC 6455): the response
    header list, extension negotiation, and the extension instances stored on the call. */
module Upgrade {
  import opened Http
  import HttpHeaders
  import opened ExtensionProtocols
  import opened Extensions
  import opened Joining

  /** `joinToString(";")` separator between the negotiated extension declarations. */
  const ExtensionSeparator: char := ';'

  /** Code this model does not see, passed in explicitly: `websocketServerAccept` and
      `parseWebSocketExtensions`. */
  datatype Collaborators = Collaborators(
    serverAccept: string -> string,
    parseExtensions: string -> seq<WebSocketExtensionProtocol>)

  /** What the response headers depend on: the request's key, the chosen subprotocol, the
      per-install negotiation switch, the request's extensions header and the registry. */
  datatype HandshakeInput = HandshakeInput(
    key: Option<string>,
    protocol: Option<string>,
    installExtensions: bool,
    extensionsHeader: Option<string>,
    registry: seq<ExtensionFactory>)

  /** The requested tokens: the parsed extensions header, or none when the header is absent. */
  function RequestedExtensions(header: Option<string>, parse: string -> seq<WebSocketExtensionProtocol>)
    : seq<WebSocketExtensionProtocol>
  {
    match header
    case None => []
    case Some(value) => parse(value)
  }

  /** A field that is either there with the given value or left out entirely. */
  function OptionalField(name: string, value: Option<string>): seq<Field>
  {
    if value.Some? then [(name, value.value)] else []
  }

  /** What `writeExtensions` appends: nothing when negotiation is off or yields nothing,
      otherwise one field holding the joined declarations. */
  function ExtensionFields(input: HandshakeInput, c: Collaborators): seq<Field>
  {
    if !input.installExtensions then []
    else
      var outs := Negotiated(input.registry, RequestedExtensions(input.extensionsHeader, c.parseExtensions));
      if outs == [] then [] else [(HttpHeaders.SecWebSocketExtensions, Join(outs, ExtensionSeparator))]
  }

  /** The `Sec-WebSocket-Accept` value: the accept value of the key, when there is a key. */
  function AcceptValue(key: Option<string>, c: Collaborators): Option<string>
  {
    match key
    case None => None
    case Some(k) => Some(c.serverAccept(k))
  }

  const MandatoryFields: seq<Field> := [(HttpHeaders.Upgrade, "websocket"), (HttpHeaders.Connection, "Upgrade")]

  /** The response header list the `headers` getter builds. */
  function ResponseHeaders(input: HandshakeInput, c: Collaborators): (r: seq<Field>)
    ensures |r| == 2 + (if input.key.Some? then 1 else 0) + (if input.protocol.Some? then 1 else 0)
                     + |ExtensionFields(input, c)|
    ensures r[..2] == MandatoryFields
  {
    MandatoryFields
      + OptionalField(HttpHeaders.SecWebSocketAccept, AcceptValue(input.key, c))
      + OptionalField(HttpHeaders.SecWebSocketProtocol, input.protocol)
      + ExtensionFields(input, c)
  }

  /** Position of each response field in the fixed order; 5 for any other name. */
  function FieldRank(name: string): nat
  {
    if name == HttpHeaders.Upgrade then 0
    else if name == HttpHeaders.Connection then 1
    else if name == HttpHeaders.SecWebSocketAccept then 2
    else if name == HttpHeaders.SecWebSocketProtocol then 3
    else if name == HttpHeaders.SecWebSocketExtensions then 4
    else 5
  }

  /** Fields strictly in the fixed order, hence each name at most once. */
  ghost predicate InFieldOrder(h: seq<Field>)
  {
    forall i, j :: 0 <= i < j < |h| ==> FieldRank(h[i].0) < FieldRank(h[j].0)
  }

  ghost predicate RanksWithin(h: seq<Field>, lo: nat, hi: nat)
  {
    forall k :: 0 <= k < |h| ==> lo <= FieldRank(h[k].0) < hi
  }

  /** The response starts with `Upgrade: websocket`, `Connection: Upgrade`, holds two to five
      fields, each one of the five handshake fields, in the order Upgrade, Connection, Accept,
      Protocol, Extensions, with none repeated. */
  lemma ResponseShape(input: HandshakeInput, c: Collaborators)
    ensures var h := ResponseHeaders(input, c);
            2 <= |h| <= 5 &&
            h[0] == (HttpHeaders.Upgrade, "websocket") &&
            h[1] == (HttpHeaders.Connection, "Upgrade") &&
            InFieldOrder(h) && RanksWithin(h, 0, 5)
  {
  }

  /** Values of one name across the four parts of the response. */
  lemma ResponseValues(input: HandshakeInput, c: Collaborators, name: string)
    ensures Values(ResponseHeaders(input, c), name) ==
            Values(MandatoryFields, name)
            + Values(OptionalField(HttpHeaders.SecWebSocketAccept, AcceptValue(input.key, c)), name)
            + Values(OptionalField(HttpHeaders.SecWebSocketProtocol, input.protocol), name)
            + Values(ExtensionFields(input, c), name)
  {
    var m := MandatoryFields;
    var a := OptionalField(HttpHeaders.SecWebSocketAccept, AcceptValue(input.key, c));
    var p := OptionalField(HttpHeaders.SecWebSocketProtocol, input.protocol);
    var e := ExtensionFields(input, c);
    ValuesConcat(m + a + p, e, name);
    ValuesConcat(m + a, p, name);
    ValuesConcat(m, a, name);
  }

  /** `Sec-WebSocket-Accept` appears exactly when the request carried `Sec-WebSocket-Key`, once,
      with the accept value computed from that key. */
  lemma AcceptField(input: HandshakeInput, c: Collaborators)
    ensures Values(ResponseHeaders(input, c), HttpHeaders.SecWebSocketAccept) ==
            if input.key.Some? then [c.serverAccept(input.key.value)] else []
  {
    ResponseValues(input, c, HttpHeaders.SecWebSocketAccept);
  }

  /** `Sec-WebSocket-Protocol` appears exactly when a protocol was given, once, echoing it. */
  lemma ProtocolField(input: HandshakeInput, c: Collaborators)
    ensures Values(ResponseHeaders(input, c), HttpHeaders.SecWebSocketProtocol) ==
            if input.protocol.Some? then [input.protocol.value] else []
  {
    ResponseValues(input, c, HttpHeaders.SecWebSocketProtocol);
  }

  /** With negotiation enabled, every factory is negotiated on the parsed request header (no
      tokens when it is absent), and `Sec-WebSocket-Extensions` appears, once, exactly when the
      combined output is non-empty, holding it joined with ";". Its value is empty only when the
      whole output is one empty declaration. */
  lemma ExtensionsField(input: HandshakeInput, c: Collaborators)
    ensures var requested := if input.extensionsHeader.Some?
                             then c.parseExtensions(input.extensionsHeader.value) else [];
            var outs := Negotiated(input.registry, requested);
            var vs := Values(ResponseHeaders(input, c), HttpHeaders.SecWebSocketExtensions);
            (vs == if input.installExtensions && outs != [] then [Join(outs, ';')] else []) &&
            (vs == [""] <==> input.installExtensions && outs == [""])
  {
    var name := HttpHeaders.SecWebSocketExtensions;
    ResponseValues(input, c, name);
    var outs := Negotiated(input.registry, RequestedExtensions(input.extensionsHeader, c.parseExtensions));
    assert Values(MandatoryFields, name) == [];
    assert Values(OptionalField(HttpHeaders.SecWebSocketAccept, AcceptValue(input.key, c)), name) == [];
    assert Values(OptionalField(HttpHeaders.SecWebSocketProtocol, input.protocol), name) == [];
    if input.installExtensions && outs != [] {
      assert ExtensionFields(input, c) == [(name, Join(outs, ExtensionSeparator))];
      JoinEmptyIff(outs, ExtensionSeparator);
    } else {
      assert ExtensionFields(input, c) == [];
    }
  }

  /** With negotiation disabled there is no `Sec-WebSocket-Extensions` field, and the response
      does not depend on the registry, the request's extensions header or the parser. */
  lemma ExtensionsDisabled(input: HandshakeInput, c: Collaborators, registry: seq<ExtensionFactory>,
                           header: Option<string>, parse: string -> seq<WebSocketExtensionProtocol>)
    requires !input.installExtensions
    ensures Values(ResponseHeaders(input, c), HttpHeaders.SecWebSocketExtensions) == []
    ensures ResponseHeaders(input.(registry := registry, extensionsHeader := header), c.(parseExtensions := parse))
            == ResponseHeaders(input, c)
  {
    ResponseValues(input, c, HttpHeaders.SecWebSocketExtensions);
  }

  /** The one attribute this code writes on a call. */
  datatype AttributeKey = ExtensionsKey

  /** The parts of an `ApplicationCall` the handshake touches. */
  class ApplicationCall {
    const requestHeaders: map<string, string>
    var attributes: map<AttributeKey, seq<WebSocketExtension>>

    constructor (requestHeaders: map<string, string>)
      ensures this.requestHeaders == requestHeaders && attributes == map[]
    {
      this.requestHeaders := requestHeaders;
      attributes := map[];
    }

    /** `call.request.header(name)`: the request's value, or none. */
    function RequestHeader(name: string): Option<string>
    {
      if name in requestHeaders then Some(requestHeaders[name]) else None
    }
  }

  /** The `ProtocolUpgrade` response object, without its `upgrade` step. */
  class WebSocketUpgrade {
    const call: ApplicationCall
    const protocol: Option<string>
    const installExtensions: bool
    const key: Option<string>
    /** `feature.extensions`, the registry handed in instead of looked up on the application. */
    const registry: seq<ExtensionFactory>
    /** One instance per registered factory, or none when negotiation is off. */
    const extensions: seq<WebSocketExtension>

    /** Reads the key, instantiates every factory when negotiation is on, and stores the
        instances on the call under `ExtensionsKey`. */
    constructor (call: ApplicationCall, feature: WebSocketsFeature, protocol: Option<string>, installExtensions: bool)
      modifies call
      ensures this.call == call && this.protocol == protocol && this.installExtensions == installExtensions
      ensures registry == feature.extensions
      ensures key == call.RequestHeader(HttpHeaders.SecWebSocketKey)
      ensures FactoriesOf(extensions) == if installExtensions then feature.extensions else []
      ensures forall k :: 0 <= k < |extensions| ==> fresh(extensions[k]) && extensions[k].protocols == []
      ensures forall j, k :: 0 <= j < k < |extensions| ==> extensions[j] != extensions[k]
      ensures call.attributes == old(call.attributes)[ExtensionsKey := extensions]
    {
      this.call := call;
      this.protocol := protocol;
      this.installExtensions := installExtensions;
      key := call.RequestHeader(HttpHeaders.SecWebSocketKey);
      registry := feature.extensions;
      var exts: seq<WebSocketExtension> := [];
      if installExtensions {
        exts := InstantiateAll(feature.extensions);
      }
      extensions := exts;
      new;
      call.attributes := call.attributes[ExtensionsKey := extensions];
    }

    /** The secondary constructor: negotiation off. */
    constructor WithoutExtensions(call: ApplicationCall, feature: WebSocketsFeature, protocol: Option<string>)
      modifies call
      ensures this.call == call && this.protocol == protocol && !installExtensions
      ensures registry == feature.extensions
      ensures key == call.RequestHeader(HttpHeaders.SecWebSocketKey)
      ensures extensions == []
      ensures call.attributes == old(call.attributes)[ExtensionsKey := []]
    {
      this.call := call;
      this.protocol := protocol;
      installExtensions := false;
      key := call.RequestHeader(HttpHeaders.SecWebSocketKey);
      registry := feature.extensions;
      extensions := [];
      new;
      call.attributes := call.attributes[ExtensionsKey := extensions];
    }

    function Input(): HandshakeInput
    {
      HandshakeInput(key, protocol, installExtensions, call.RequestHeader(HttpHeaders.SecWebSocketExtensions), registry)
    }

    /** The `headers` getter. It negotiates on instances it makes itself and has no modifies
        clause: the stored `extensions` are left as they were. */
    method Headers(c: Collaborators) returns (h: seq<Field>)
      ensures h == ResponseHeaders(Input(), c)
    {
      var b := new HeadersBuilder();
      b.Append(HttpHeaders.Upgrade, "websocket");
      b.Append(HttpHeaders.Connection, "Upgrade");
      if key.Some? {
        b.Append(HttpHeaders.SecWebSocketAccept, c.serverAccept(key.value));
      }
      if protocol.Some? {
        b.Append(HttpHeaders.SecWebSocketProtocol, protocol.value);
      }
      WriteExtensions(b, c);
      h := b.fields;
    }

    /** `HeadersBuilder.writeExtensions()`. */
    method WriteExtensions(b: HeadersBuilder, c: Collaborators)
      modifies b
      ensures b.fields == old(b.fields) + ExtensionFields(Input(), c)
    {
      if !installExtensions {
        return;
      }
      var requested := RequestedExtensions(call.RequestHeader(HttpHeaders.SecWebSocketExtensions), c.parseExtensions);
      var outs := NegotiateAll(registry, requested);
      if outs != [] {
        b.Append(HttpHeaders.SecWebSocketExtensions, Join(outs, ExtensionSeparator));
      }
    }
  }

  /** A client requests three extensions; of two registered factories only the second supports
      one of them. The response declares that one, yet both factories' instances are stored. */
  method OnlyOneFactorySupportsRequest(c: Collaborators) returns (h: seq<Field>, stored: seq<WebSocketExtension>)
    requires c.parseExtensions("A, B, C") ==
             [WebSocketExtensionProtocol("A", []), WebSocketExtensionProtocol("B", []), WebSocketExtensionProtocol("C", [])]
    ensures Values(h, HttpHeaders.SecWebSocketExtensions) == ["B"]
    ensures |stored| == 2 && stored[0].protocols == [] && stored[1].protocols == []
  {
    var none := ExtensionFactory(requested => []);
    var onlyB := ExtensionFactory(requested => if WebSocketExtensionProtocol("B", []) in requested then ["B"] else []);
    var call := new ApplicationCall(map[HttpHeaders.SecWebSocketExtensions := "A, B, C"]);
    var u := new WebSocketUpgrade(call, WebSocketsFeature([none, onlyB]), None, true);
    h := u.Headers(c);
    stored := u.extensions;
    var requested := [WebSocketExtensionProtocol("A", []), WebSocketExtensionProtocol("B", []),
                      WebSocketExtensionProtocol("C", [])];
    assert u.Input().extensionsHeader == Some("A, B, C");
    assert [none, onlyB][..1] == [none];
    assert Negotiated([none, onlyB], requested) == ["B"] by {
      assert requested[1] == WebSocketExtensionProtocol("B", []);
      assert onlyB.negotiate(requested) == ["B"];
      assert [none][..0] == [];
      assert Negotiated([none], requested) == [];
    }
    ExtensionsField(u.Input(), c);
  }
}
