# WebSocket upgrade handshake (ktor `WebSocketUpgrade`)

This project models the server side of ktor's WebSocket opening handshake (section 4.2.2 of
RFC 6455). It covers the `WebSocketUpgrade` response object up to the point where the HTTP engine
takes over the connection:

- **Response headers.** The `headers` getter builds an ordered field list on a `HeadersBuilder`.
  `Upgrade: websocket` and `Connection: Upgrade` are always there. `Sec-WebSocket-Accept` is added
  when the request has a `Sec-WebSocket-Key`. `Sec-WebSocket-Protocol` is added when a protocol was
  given. `Sec-WebSocket-Extensions` is added when extension negotiation is on and produced
  something.
- **Extension negotiation** (`writeExtensions`). Each registered factory makes a fresh instance.
  Each instance's `serverNegotiation` runs on the full list of requested tokens. All the outputs
  are concatenated in registration order and joined with `;`.
- **The stored `extensions` list.** It holds one instance per factory, or nothing when negotiation
  is off. The constructor puts it in the call's attributes.

Files:

- `http_headers.dfy`: the header names (`HttpHeaders`), header lists, `Values` (every value a
  name has in a list), and the `HeadersBuilder` class.
- `extension_protocol.dfy`: `WebSocketExtensionProtocol`, a requested token. It has a name and
  parameters in wire order.
- `joining.dfy`: `joinToString` as `Join`, with `Split` as its inverse.
- `extensions.dfy`: factories, the `WebSocketExtension` class, `Negotiated` (the `flatMap`) and
  the loops that instantiate and negotiate.
- `websocket_upgrade.dfy`: `ResponseHeaders` (the specification of the getter), its lemmas, and
  the `ApplicationCall` and `WebSocketUpgrade` classes.

Code this model cannot see is passed in explicitly. That covers `websocketServerAccept`,
`parseWebSocketExtensions` (both in `Collaborators`) and each factory's `serverNegotiation` (the
`negotiate` function of an `ExtensionFactory`). The `WebSockets` feature's registry is also
passed in, as a `WebSocketsFeature` value, rather than found through `call.application.feature`.

Some functions only compute and are the reference definitions that the lemma and method rows
below are stated against:
- `Upgrade.AcceptValue` computes the accept value of the key (lines 57-58). `AcceptField` states it.
- `Upgrade.RequestedExtensions` computes the requested tokens (lines 96-97). `ExtensionsField`
  states them.
- `Upgrade.ExtensionFields` computes what `writeExtensions` appends (lines 94-105).
  `ExtensionsField` and `WriteExtensions` state it.
- `Upgrade.ApplicationCall.RequestHeader` computes `call.request.header` (lines 44 and 96). The
  constructor's key clause and `ExtensionsField` state it.

In the field lemmas, `Values(h, name) == []` means that no field of `h` has that name, by
`Http.ValuesEmptyIff`.

The model follows the code at these points:

- The stored `extensions` list keeps an instance for **every** factory, including factories whose
  negotiation gives nothing. `OnlyOneFactorySupportsRequest` shows two instances stored when only
  one extension is declared.
- `writeExtensions` negotiates on **fresh** instances, not on the stored ones. `Headers` has no
  modifies clause, so it cannot change the stored instances. Their `protocols` stay empty.
- Negotiation accumulates across all factories. It does not stop at the first one that answers
  (`NegotiatedSlice`).
- The declarations are joined with `;`. Section 9.1 of RFC 6455 separates extensions with `,` and
  an extension's parameters with `;`. Splitting the joined value at `;` gives the declarations
  back exactly when none of them has `;` inside it. `SplitJoin` proves the round trip without
  inner `;`. `SplitJoinBreaks` proves that one inner `;` yields more pieces than declarations.
- The header is never added with an empty list. It can still carry an empty value, but only when
  the whole output is one empty declaration (`ExtensionsField`).

## Model

| member | source | states |
|---|---|---|
| `Upgrade.ResponseShape` | ktor-features/ktor-websockets/jvm/src/io/ktor/websocket/WebSocketUpgrade.kt:54-65 | The response starts with `Upgrade: websocket` then `Connection: Upgrade`. It has 2 to 5 fields. Each is one of the five handshake fields, and they come strictly in the order Upgrade, Connection, Accept, Protocol, Extensions, so none appears twice and nothing else is added |
| `Upgrade.AcceptField` | ktor-features/ktor-websockets/jvm/src/io/ktor/websocket/WebSocketUpgrade.kt:57-59 | `Sec-WebSocket-Accept` is present iff the request's key is present. It then appears once, with the accept value of that key |
| `Upgrade.ProtocolField` | ktor-features/ktor-websockets/jvm/src/io/ktor/websocket/WebSocketUpgrade.kt:60-62 | `Sec-WebSocket-Protocol` is present iff a protocol was given. It then appears once, with exactly that protocol |
| `Upgrade.ExtensionsField` | ktor-features/ktor-websockets/jvm/src/io/ktor/websocket/WebSocketUpgrade.kt:93-105 | The requested tokens are the parsed request header, or none when it is absent. `Sec-WebSocket-Extensions` is present iff negotiation is on and the combined output is non-empty. It then appears once, with the output joined by `;`. Its value is empty iff that output is one empty declaration |
| `Upgrade.ExtensionsDisabled` | ktor-features/ktor-websockets/jvm/src/io/ktor/websocket/WebSocketUpgrade.kt:94 | With negotiation off there is no extensions field. The response then does not depend on the registry, the request's extensions header or the parser |
| `Upgrade.WebSocketUpgrade.Headers` | ktor-features/ktor-websockets/jvm/src/io/ktor/websocket/WebSocketUpgrade.kt:53-65 | The getter's successive appends build exactly `ResponseHeaders` of the object's key, protocol, switch, request header and registry. It changes no existing object, so the stored instances are untouched |
| `Upgrade.WebSocketUpgrade.WriteExtensions` | ktor-features/ktor-websockets/jvm/src/io/ktor/websocket/WebSocketUpgrade.kt:93-106 | Appends nothing when negotiation is off or gives nothing. Otherwise it appends one field holding the joined declarations; the builder's earlier fields are kept |
| `Upgrade.WebSocketUpgrade.constructor` | ktor-features/ktor-websockets/jvm/src/io/ktor/websocket/WebSocketUpgrade.kt:44-69 | The key is the request's `Sec-WebSocket-Key`. `extensions` has one fresh, distinct, not yet negotiated instance per registered factory in registry order, or none when negotiation is off. The call's attributes gain exactly that list under the extensions key |
| `Upgrade.WebSocketUpgrade.WithoutExtensions` | ktor-features/ktor-websockets/jvm/src/io/ktor/websocket/WebSocketUpgrade.kt:38-42 | The secondary constructor turns negotiation off. It stores an empty extension list |
| `Upgrade.OnlyOneFactorySupportsRequest` | ktor-features/ktor-websockets/jvm/src/io/ktor/websocket/WebSocketUpgrade.kt:47-104 | A request for A, B and C, with two factories where only the second accepts B, gets the declaration `B` only. Both factories' instances are still stored, and neither is negotiated |
| `Extensions.NegotiateAll` | ktor-features/ktor-websockets/jvm/src/io/ktor/websocket/WebSocketUpgrade.kt:99-101 | Negotiating a fresh instance of each factory, in order, yields `Negotiated`: every factory's output concatenated in registration order |
| `Extensions.NegotiatedSlice` | ktor-features/ktor-websockets/jvm/src/io/ktor/websocket/WebSocketUpgrade.kt:99-101 | Every factory contributes, not just the first: factory k's whole output sits in the combined list right after the outputs of factories 0..k-1 |
| `Extensions.NegotiatedConcat` | ktor-features/ktor-websockets/jvm/src/io/ktor/websocket/WebSocketUpgrade.kt:99-101 | Negotiating over two registries one after the other gives the concatenation of the two outputs |
| `Extensions.Negotiated` | ktor-features/ktor-websockets/jvm/src/io/ktor/websocket/WebSocketUpgrade.kt:99-103 | The `flatMap`: every factory's output for the full requested list, concatenated in registration order. It is empty iff no factory's negotiation gives anything |
| `Extensions.InstantiateAll` | ktor-features/ktor-websockets/jvm/src/io/ktor/websocket/WebSocketUpgrade.kt:47-48 | `map { it() }`: one fresh, pairwise distinct, not yet negotiated instance per factory, in registry order |
| `Extensions.WebSocketExtension.ServerNegotiation` | ktor-features/ktor-websockets/jvm/src/io/ktor/websocket/WebSocketUpgrade.kt:100 | An instance answers with its factory's declarations for the full requested list and records them |
| `Joining.JoinEmptyIff` | ktor-features/ktor-websockets/jvm/src/io/ktor/websocket/WebSocketUpgrade.kt:104 | `joinToString` gives the empty string iff there are no parts or exactly one empty part |
| `Joining.SplitJoin` | ktor-features/ktor-websockets/jvm/src/io/ktor/websocket/WebSocketUpgrade.kt:104 | Splitting at the separator recovers the joined parts, given at least one part and no separator inside any part |
| `Upgrade.ResponseHeaders` | ktor-features/ktor-websockets/jvm/src/io/ktor/websocket/WebSocketUpgrade.kt:53-65 | The header list the getter builds. It starts with the two mandatory fields and holds one more field for a key, one for a protocol, and the extensions fields |
| `Joining.Join` | ktor-features/ktor-websockets/jvm/src/io/ktor/websocket/WebSocketUpgrade.kt:104 | `joinToString`: no parts give the empty string. Otherwise the value starts with the first part, and with two or more parts a separator follows it |
| `Joining.SplitJoinBreaks` | ktor-features/ktor-websockets/jvm/src/io/ktor/websocket/WebSocketUpgrade.kt:104 | When some part contains the separator, splitting the joined value gives more pieces than there were parts, so the round trip fails |
| `Extensions.WebSocketExtension.constructor` | ktor-features/ktor-websockets/jvm/src/io/ktor/websocket/WebSocketUpgrade.kt:48 | `it()`: a new instance of the given factory that has not negotiated anything yet. It is called at line 48 and, for fresh instances, at line 100 |
| `Http.HeadersBuilder.Append` | ktor-features/ktor-websockets/jvm/src/io/ktor/websocket/WebSocketUpgrade.kt:55-56 | `append` adds exactly one field at the end and keeps the earlier ones |

## Left out

- `upgrade()` (WebSocketUpgrade.kt:71-91) is not modelled. It builds the raw session, merges the
  engine and caller coroutine contexts, launches the handler and discards the handler's
  exceptions. That is concurrency and cancellation, which this model does not cover. The `handle`
  parameter and the feature's `maxFrameSize` and `masking` are used only there, so they are left
  out too.
- `websocketServerAccept` (SHA-1 and base64 of the key plus the RFC 6455 GUID) is a parameter. So
  the test vector of section 1.3 of RFC 6455 is not proved.
- `parseWebSocketExtensions` and each extension's `serverNegotiation` are parameters. Anything
  `serverNegotiation` does beyond returning and recording its declarations is not modelled.
- Request headers are a map from name to one value. Case-insensitive names and repeated headers
  are not modelled. The built `Headers` value is the builder's field list, not ktor's
  case-insensitive multi-map.
- Call attributes hold only the extensions key that this code writes.
- `WebSocketUpgrade.constructor` cannot fail. The source looks up the `WebSockets` feature at
  line 45 even when negotiation is off, and that lookup fails when the feature is not installed.
  Here the registry is passed in, so that failure is not modelled.
- ktor-core/src/org/jetbrains/ktor/features/HeadRequestSupport.kt is not part of this model. It
  only registers framework interceptors.
- `WebSocketExtensionProtocol` is modelled only as the datatype of requested tokens. It has no
  behaviour of its own.
- `WebSocketExtensionProtocol` is a plain Kotlin class, so Kotlin compares tokens by identity.
  Here they are a datatype compared by value, so a modelled `negotiate` cannot tell apart two
  tokens with the same name and parameters. `WebSocketUpgrade.kt` never compares tokens itself.
  The test in `OnlyOneFactorySupportsRequest` that looks for a token `B` relies on value equality.
