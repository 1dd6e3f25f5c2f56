/** The servlet request and response as plain records. A response keeps its headers as an ordered
    list of name/value pairs; `addHeader` appends a value, `setHeader` replaces every value of a
    name, and the header names are the distinct names present. */
module Http {
  import opened Wrappers
  import opened WindowsPrincipals

  type Header = (string, string)

  datatype Response = Response(status: nat, headers: seq<Header>)

  /** A principal already attached to a request or a session: one of ours, or any other kind. */
  datatype CallerPrincipal = WindowsCaller(principal: WindowsPrincipal) | OtherCaller(name: string)

  /** What the filter reads from a request. The connection id stands for the client's address
      and port, which keys handshakes that are still in progress. */
  datatype Request = Request(
    verb: string,
    contentLength: int,
    authorization: Option<string>,
    userPrincipal: Option<CallerPrincipal>,
    sessionId: string,
    connectionId: string)

  const Ok: nat := 200
  const Unauthorized: nat := 401

  const WwwAuthenticate: string := "WWW-Authenticate"
  const Connection: string := "Connection"

  function NewResponse(): Response {
    Response(Ok, [])
  }

  /** `getHeaderValues(name)`: every value of the name, in the order they were added. */
  function Values(headers: seq<Header>, name: string): (r: seq<string>)
    ensures |r| <= |headers|
  {
    if |headers| == 0 then []
    else (if headers[0].0 == name then [headers[0].1] else []) + Values(headers[1..], name)
  }

  /** The distinct header names; `getHeaderNamesSize` is their number. */
  function Names(headers: seq<Header>): (r: set<string>)
    ensures forall n :: n in r <==> Values(headers, n) != []
    decreases |headers|
  {
    if |headers| == 0 then {} else {headers[0].0} + Names(headers[1..])
  }

  /** `getHeader(name)`: the first value, if any. */
  function FirstValue(headers: seq<Header>, name: string): (r: Option<string>)
    ensures r.None? <==> Values(headers, name) == []
    ensures r.Some? ==> r.value == Values(headers, name)[0]
  {
    var vs := Values(headers, name);
    if |vs| == 0 then None else Some(vs[0])
  }

  lemma {:induction false} ValuesAppend(a: seq<Header>, b: seq<Header>, name: string)
    ensures Values(a + b, name) == Values(a, name) + Values(b, name)
    decreases |a|
  {
    if |a| == 0 {
      assert a + b == b;
    } else {
      assert (a + b)[0] == a[0] && (a + b)[1..] == a[1..] + b;
      ValuesAppend(a[1..], b, name);
    }
  }

  lemma {:induction false} ValuesOfOthers(headers: seq<Header>, name: string)
    requires forall i :: 0 <= i < |headers| ==> headers[i].0 != name
    ensures Values(headers, name) == []
    decreases |headers|
  {
    if |headers| > 0 {
      ValuesOfOthers(headers[1..], name);
    }
  }

  /** `addHeader`: one more value for the name, every other name untouched. */
  function AddHeader(r: Response, name: string, value: string): (res: Response)
    ensures res.status == r.status
    ensures Values(res.headers, name) == Values(r.headers, name) + [value]
    ensures forall n :: n != name ==> Values(res.headers, n) == Values(r.headers, n)
    ensures Names(res.headers) == Names(r.headers) + {name}
  {
    var res := r.(headers := r.headers + [(name, value)]);
    assert Values(res.headers, name) == Values(r.headers, name) + [value] by {
      ValuesAppend(r.headers, [(name, value)], name);
    }
    assert forall n :: Values(res.headers, n) == Values(r.headers, n) + (if n == name then [value] else []) by {
      forall n {
        ValuesAppend(r.headers, [(name, value)], n);
      }
    }
    res
  }

  function WithoutName(headers: seq<Header>, name: string): (r: seq<Header>)
    ensures forall i :: 0 <= i < |r| ==> r[i].0 != name
    ensures forall n :: n != name ==> Values(r, n) == Values(headers, n)
    decreases |headers|
  {
    if |headers| == 0 then []
    else if headers[0].0 == name then WithoutName(headers[1..], name)
    else
      var rest := WithoutName(headers[1..], name);
      assert ([headers[0]] + rest)[1..] == rest;
      [headers[0]] + rest
  }

  /** `setHeader`: the name ends up with exactly this one value, every other name untouched. */
  function SetHeader(r: Response, name: string, value: string): (res: Response)
    ensures res.status == r.status
    ensures Values(res.headers, name) == [value]
    ensures forall n :: n != name ==> Values(res.headers, n) == Values(r.headers, n)
    ensures Names(res.headers) == Names(r.headers) + {name}
  {
    var kept := WithoutName(r.headers, name);
    ValuesOfOthers(kept, name);
    var res := AddHeader(r.(headers := kept), name, value);
    assert forall n :: n in Names(res.headers) <==> n in Names(r.headers) + {name};
    res
  }

  /** `sendError(status)`: only the status changes. */
  function SendError(r: Response, status: nat): (res: Response)
    ensures res.status == status && res.headers == r.headers
  {
    r.(status := status)
  }
}
