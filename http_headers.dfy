/** Header names used by the WebSocket handshake, as `io.ktor.http.HttpHeaders` spells them. */
module HttpHeaders {
  const Upgrade: string := "Upgrade"
  const Connection: string := "Connection"
  const SecWebSocketKey: string := "Sec-WebSocket-Key"
  const SecWebSocketAccept: string := "Sec-WebSocket-Accept"
  const SecWebSocketProtocol: string := "Sec-WebSocket-Protocol"
  const SecWebSocketExtensions: string := "Sec-WebSocket-Extensions"
}

/** Header lists and the mutable builder that `Headers.build { ... }` runs its block on. */
module Http {

  datatype Option<+T> = None | Some(value: T)

  /** One header field: name and value. */
  type Field = (string, string)

  /** Every value given to `name` in `h`, in the order the fields appear. */
  function Values(h: seq<Field>, name: string): (r: seq<string>)
    ensures |r| <= |h|
    ensures forall k :: 0 <= k < |r| ==> (name, r[k]) in h
  {
    if h == [] then []
    else (if h[0].0 == name then [h[0].1] else []) + Values(h[1..], name)
  }

  lemma {:induction false} ValuesConcat(a: seq<Field>, b: seq<Field>, name: string)
    ensures Values(a + b, name) == Values(a, name) + Values(b, name)
  {
    if a == [] {
      assert a + b == b;
    } else {
      assert (a + b)[1..] == a[1..] + b;
      ValuesConcat(a[1..], b, name);
    }
  }

  /** A field is absent exactly when no entry of the list carries its name. */
  lemma {:induction false} ValuesEmptyIff(h: seq<Field>, name: string)
    ensures Values(h, name) == [] <==> forall k :: 0 <= k < |h| ==> h[k].0 != name
  {
    if h != [] {
      ValuesEmptyIff(h[1..], name);
      assert forall k :: 1 <= k < |h| ==> h[k] == h[1..][k - 1];
    }
  }

  /** The builder a `Headers.build { ... }` block appends to. */
  class HeadersBuilder {
    var fields: seq<Field>

    constructor ()
      ensures fields == []
    {
      fields := [];
    }

    method Append(name: string, value: string)
      modifies this
      ensures fields == old(fields) + [(name, value)]
    {
      fields := fields + [(name, value)];
    }
  }
}
