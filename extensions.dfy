/** The registry of extension factories and server-side negotiation against the requested tokens. */
module Extensions {
  import opened ExtensionProtocols

  /** A registered factory (`() -> WebSocketExtension<*>`). Every instance it makes answers
      `serverNegotiation` with `negotiate`: the response declarations it agrees to for the full
      list of requested tokens, possibly none. */
  datatype ExtensionFactory = ExtensionFactory(negotiate: seq<WebSocketExtensionProtocol> -> seq<string>)

  /** The installed `WebSockets` feature, reduced to its extension registry in registration order. */
  datatype WebSocketsFeature = WebSocketsFeature(extensions: seq<ExtensionFactory>)

  /** One live extension instance. */
  class WebSocketExtension {
    const factory: ExtensionFactory
    /** The declarations this instance agreed to; empty until its negotiation runs. */
    var protocols: seq<string>

    constructor (factory: ExtensionFactory)
      ensures this.factory == factory && protocols == []
    {
      this.factory := factory;
      protocols := [];
    }

    method ServerNegotiation(requested: seq<WebSocketExtensionProtocol>) returns (r: seq<string>)
      modifies this
      ensures r == factory.negotiate(requested) && protocols == r
    {
      r := factory.negotiate(requested);
      protocols := r;
    }
  }

  /** The factories a list of instances came from, position by position. */
  ghost function FactoriesOf(exts: seq<WebSocketExtension>): (r: seq<ExtensionFactory>)
    ensures |r| == |exts|
  {
    seq(|exts|, k requires 0 <= k < |exts| => exts[k].factory)
  }

  /** `registry.flatMap { it().serverNegotiation(requested) }`: every factory's output,
      concatenated in registration order. It is empty exactly when no factory yields anything. */
  function Negotiated(registry: seq<ExtensionFactory>, requested: seq<WebSocketExtensionProtocol>): (r: seq<string>)
    ensures r == [] <==> forall k :: 0 <= k < |registry| ==> registry[k].negotiate(requested) == []
  {
    if registry == [] then []
    else Negotiated(registry[..|registry| - 1], requested) + registry[|registry| - 1].negotiate(requested)
  }

  /** Negotiation over two registries placed one after the other is the concatenation of both. */
  lemma {:induction false} NegotiatedConcat(r1: seq<ExtensionFactory>, r2: seq<ExtensionFactory>,
                                            requested: seq<WebSocketExtensionProtocol>)
    ensures Negotiated(r1 + r2, requested) == Negotiated(r1, requested) + Negotiated(r2, requested)
  {
    if r2 == [] {
      assert r1 + r2 == r1;
    } else {
      var last := |r2| - 1;
      assert (r1 + r2)[..|r1 + r2| - 1] == r1 + r2[..last];
      NegotiatedConcat(r1, r2[..last], requested);
    }
  }

  /** Every factory contributes, not only the first that yields something: factory `k`'s whole
      output sits in the combined list right after the outputs of the factories before it. */
  lemma NegotiatedSlice(registry: seq<ExtensionFactory>, requested: seq<WebSocketExtensionProtocol>, k: nat)
    requires k < |registry|
    ensures var lo := |Negotiated(registry[..k], requested)|;
            var out := registry[k].negotiate(requested);
            lo + |out| <= |Negotiated(registry, requested)| &&
            Negotiated(registry, requested)[lo..lo + |out|] == out
  {
    assert registry == registry[..k] + ([registry[k]] + registry[k + 1..]);
    NegotiatedConcat(registry[..k], [registry[k]] + registry[k + 1..], requested);
    NegotiatedConcat([registry[k]], registry[k + 1..], requested);
    assert Negotiated([registry[k]], requested) == registry[k].negotiate(requested) by {
      assert [registry[k]][..0] == [];
    }
  }

  /** `registry.map { it() }`: one fresh, distinct instance per factory, in registration order,
      none of them negotiated yet. */
  method InstantiateAll(registry: seq<ExtensionFactory>) returns (exts: seq<WebSocketExtension>)
    ensures FactoriesOf(exts) == registry
    ensures forall k :: 0 <= k < |exts| ==> fresh(exts[k]) && exts[k].protocols == []
    ensures forall j, k :: 0 <= j < k < |exts| ==> exts[j] != exts[k]
  {
    exts := [];
    var i := 0;
    while i < |registry|
      invariant 0 <= i <= |registry|
      invariant FactoriesOf(exts) == registry[..i]
      invariant forall k :: 0 <= k < |exts| ==> fresh(exts[k]) && exts[k].protocols == []
      invariant forall j, k :: 0 <= j < k < |exts| ==> exts[j] != exts[k]
    {
      var ext := new WebSocketExtension(registry[i]);
      exts := exts + [ext];
      i := i + 1;
    }
    assert registry[..i] == registry;
  }

  /** The loop behind the `flatMap`: a fresh instance per factory, negotiated on the full
      requested list, its output appended. Nothing allocated before the call is changed. */
  method NegotiateAll(registry: seq<ExtensionFactory>, requested: seq<WebSocketExtensionProtocol>)
    returns (outs: seq<string>)
    ensures outs == Negotiated(registry, requested)
  {
    outs := [];
    var i := 0;
    while i < |registry|
      invariant 0 <= i <= |registry|
      invariant outs == Negotiated(registry[..i], requested)
    {
      var ext := new WebSocketExtension(registry[i]);
      var r := ext.ServerNegotiation(requested);
      assert registry[..i + 1][..i] == registry[..i];
      outs := outs + r;
      i := i + 1;
    }
    assert registry[..i] == registry;
  }
}
