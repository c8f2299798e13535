/**
 * `get_browser_protocol`: the protocol the browser most likely sees, taken
 * from the outermost proxy hop. The `Forwarded` header is consulted first,
 * then `X-Scheme` or `X-Forwarded-Proto`, and finally the protocol of the
 * connection itself.
 */
module BrowserProtocol {
  import opened Common
  import opened Strings

  /** The request headers the function reads (absent header = `None`) and the connection's own protocol. */
  datatype Request = Request(
    forwarded: Option<string>,
    xScheme: Option<string>,
    xForwardedProto: Option<string>,
    protocol: string)

  predicate KnownProto(s: string) { s == "http" || s == "https" }

  /** The part of a header before its first comma: the outermost hop. */
  function FirstHop(header: string): (r: string)
    ensures ',' !in r
    ensures StartsWith(header, r)
  {
    var r := Partition(header, ',').0;
    assert header[..|r|] == r;
    r
  }

  /** The key of one `key=value` field of a `Forwarded` element: trimmed and lower-cased. */
  function FieldKey(field: string): string { Lower(Strip(Partition(field, '=').0)) }

  /** The value of one field: trimmed; empty when the field has no `=`. */
  function FieldValue(field: string): string { Strip(Partition(field, '=').1) }

  /** Each field of an element as its (key, value) pair. */
  function FieldPairs(fields: seq<string>): (r: seq<(string, string)>)
    ensures |r| == |fields|
    ensures forall i :: 0 <= i < |fields| ==> r[i] == (FieldKey(fields[i]), FieldValue(fields[i]))
  {
    seq(|fields|, i requires 0 <= i < |fields| => (FieldKey(fields[i]), FieldValue(fields[i])))
  }

  /** The fields dictionary of one element. */
  function Fields(fields: seq<string>): map<string, string> {
    Dict(FieldPairs(fields))
  }

  /** The protocol named by a non-empty `Forwarded` header, if its outermost element names http or https. */
  function ForwardedProto(header: string): (r: Option<string>)
    ensures r.Some? ==> KnownProto(r.value)
    ensures var fields := Fields(Split(Strip(FirstHop(header)), ';'));
            r.Some? <==> "proto" in fields && KnownProto(Lower(fields["proto"]))
    ensures var fields := Fields(Split(Strip(FirstHop(header)), ';'));
            r.Some? ==> "proto" in fields && r.value == Lower(fields["proto"])
  {
    var fields := Fields(Split(Strip(FirstHop(header)), ';'));
    if "proto" in fields && KnownProto(Lower(fields["proto"])) then Some(Lower(fields["proto"]))
    else None
  }

  /** The `X-Scheme` header when present, even empty; otherwise `X-Forwarded-Proto`. */
  function ProtoHeader(req: Request): Option<string> {
    if req.xScheme.Some? then req.xScheme else req.xForwardedProto
  }

  /** The protocol named by a non-empty proxy header, if its outermost value names http or https. */
  function ProxyProto(header: string): (r: Option<string>)
    ensures r.Some? ==> KnownProto(r.value) && r.value == Lower(Strip(FirstHop(header)))
    ensures r.None? ==> !KnownProto(Lower(Strip(FirstHop(header))))
  {
    var p := Lower(Strip(FirstHop(header)));
    if KnownProto(p) then Some(p) else None
  }

  /** The choice in order: Forwarded, then the proxy header, then the connection. */
  function GetBrowserProtocol(req: Request): (r: string)
    ensures KnownProto(r) || r == req.protocol
    ensures req.forwarded.Some? && req.forwarded.value != [] && ForwardedProto(req.forwarded.value).Some? ==>
              r == ForwardedProto(req.forwarded.value).value
    ensures (req.forwarded.None? || req.forwarded.value == [] || ForwardedProto(req.forwarded.value).None?) ==>
              (ProtoHeader(req).Some? && ProtoHeader(req).value != [] && ProxyProto(ProtoHeader(req).value).Some? ==>
                 r == ProxyProto(ProtoHeader(req).value).value)
    ensures (req.forwarded.None? || req.forwarded.value == [] || ForwardedProto(req.forwarded.value).None?) &&
            (ProtoHeader(req).None? || ProtoHeader(req).value == [] || ProxyProto(ProtoHeader(req).value).None?) ==>
              r == req.protocol
  {
    var fromForwarded :=
      if req.forwarded.Some? && req.forwarded.value != [] then ForwardedProto(req.forwarded.value) else None;
    var fromProxy :=
      var h := ProtoHeader(req);
      if h.Some? && h.value != [] then ProxyProto(h.value) else None;
    if fromForwarded.Some? then fromForwarded.value
    else if fromProxy.Some? then fromProxy.value
    else req.protocol
  }

  /** A usable `Forwarded` header makes the other proxy headers irrelevant. */
  lemma ForwardedDominates(req: Request, xScheme: Option<string>, xForwardedProto: Option<string>)
    ensures req.forwarded.Some? && req.forwarded.value != [] && ForwardedProto(req.forwarded.value).Some? ==>
              GetBrowserProtocol(req.(xScheme := xScheme, xForwardedProto := xForwardedProto)) == GetBrowserProtocol(req)
  {
  }

  /** When `X-Scheme` is present, even empty, `X-Forwarded-Proto` is never consulted. */
  lemma XSchemeShadowsForwardedProto(req: Request, other: Option<string>)
    requires req.xScheme.Some?
    ensures GetBrowserProtocol(req.(xForwardedProto := other)) == GetBrowserProtocol(req)
  {
  }

  /** Without any proxy header the connection's own protocol is returned. */
  lemma NoProxyHeaders(protocol: string)
    ensures GetBrowserProtocol(Request(None, None, None, protocol)) == protocol
  {
  }

  /**
   * When the last `proto` field of the outermost `Forwarded` element names
   * http or https in any letter case, that protocol, lower-cased, is the answer.
   */
  lemma {:induction false} LastProtoFieldWins(req: Request, i: nat)
    ensures req.forwarded.Some? && req.forwarded.value != [] ==>
            var fields := Split(Strip(FirstHop(req.forwarded.value)), ';');
            i < |fields| && FieldKey(fields[i]) == "proto"
            && (forall j :: i < j < |fields| ==> FieldKey(fields[j]) != "proto")
            && KnownProto(Lower(FieldValue(fields[i]))) ==>
              GetBrowserProtocol(req) == Lower(FieldValue(fields[i]))
  {
    if req.forwarded.Some? && req.forwarded.value != [] {
      var fields := Split(Strip(FirstHop(req.forwarded.value)), ';');
      if i < |fields| && FieldKey(fields[i]) == "proto"
         && (forall j :: i < j < |fields| ==> FieldKey(fields[j]) != "proto")
         && KnownProto(Lower(FieldValue(fields[i]))) {
        FieldsLastWins(fields, i);
        assert ForwardedProto(req.forwarded.value) == Some(Lower(FieldValue(fields[i])));
      }
    }
  }

  /** In the fields dictionary a key holds the value of its last field. */
  lemma FieldsLastWins(fields: seq<string>, i: nat)
    requires i < |fields|
    requires forall j :: i < j < |fields| ==> FieldKey(fields[j]) != FieldKey(fields[i])
    ensures FieldKey(fields[i]) in Fields(fields)
    ensures Fields(fields)[FieldKey(fields[i])] == FieldValue(fields[i])
  {
    var pairs := FieldPairs(fields);
    assert pairs[i].0 == FieldKey(fields[i]) && pairs[i].1 == FieldValue(fields[i]);
    assert forall j :: i < j < |pairs| ==> pairs[j].0 != pairs[i].0;
  }
}
